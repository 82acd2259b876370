/** The authenticated answer of the receiver (`openadb/core/acbridge_p2p.py`,
    `_read_authenticated_response`).  The message stays bytes. */
module AuthResponse {
  import opened Bytes
  import opened P2PEntries
  import opened RequestFraming
  import opened SocketStream
  import opened Wrappers

  datatype Counts = Counts(entries: nat, files: nat, bytes: nat)

  datatype Rejection =
    | Stream(cause: StreamError)
    | OversizedText
    | FailedAuthentication
    | UnsupportedResponse
    | InvalidStatus
    | InconsistentCounts

  /** What one exchange is bound to. */
  datatype Exchange = Exchange(crypto: Crypto, context: seq<byte>, key: seq<byte>, requestTag: seq<byte>)

  function ResponseTag(x: Exchange, payload: seq<byte>): seq<byte> {
    x.crypto.mac(x.key, x.context + x.requestTag + payload)
  }

  // ---------------------------------------------------------------- the layout

  datatype Response = Response(success: bool, counts: Counts, message: seq<byte>)

  predicate WellFormedResponse(r: Response) {
    && r.counts.entries < 0x1_0000_0000 && r.counts.files < 0x1_0000_0000 && r.counts.bytes < 0x1_0000_0000_0000_0000
    && |r.message| <= TEXT_LIMIT
  }

  function CountsFrame(c: Counts): (frame: seq<byte>)
    ensures |frame| == 16
  {
    ToBigEndian(c.entries, 4) + ToBigEndian(c.files, 4) + ToBigEndian(c.bytes, 8)
  }

  function CountsOf(frame: seq<byte>): Counts
    requires |frame| == 16
  {
    Counts(BigEndian(frame[..4]), BigEndian(frame[4..8]), BigEndian(frame[8..]))
  }

  function StatusFrame(success: bool): seq<byte> {
    [if success then 1 else 0]
  }

  function Payload(r: Response): seq<byte> {
    MAGIC + StatusFrame(r.success) + CountsFrame(r.counts) + ToBigEndian(|r.message|, 4) + r.message
  }

  function ResponseBytes(x: Exchange, r: Response): seq<byte> {
    Payload(r) + ResponseTag(x, Payload(r))
  }

  // ---------------------------------------------------------------- what a stream of bytes means

  /** The fields at the start of `data`, in the order in which they are read. */
  datatype Fields = Fields(magic: seq<byte>, status: seq<byte>, counts: seq<byte>, size: seq<byte>, message: seq<byte>,
                           tag: seq<byte>)

  function Joined(f: Fields): seq<byte> {
    f.magic + f.status + f.counts + f.size + f.message
  }

  /** The checks after everything was read, in the program's order. */
  function Judge(x: Exchange, expected: Counts, f: Fields): Result<(bool, seq<byte>), Rejection>
    requires |f.status| == 1 && |f.counts| == 16
  {
    if ResponseTag(x, Joined(f)) != f.tag then Err(FailedAuthentication)
    else if f.magic != MAGIC then Err(UnsupportedResponse)
    else if f.status[0] != 0 && f.status[0] != 1 then Err(InvalidStatus)
    else if f.status[0] == 1 && CountsOf(f.counts) != expected then Err(InconsistentCounts)
    else Ok((f.status[0] == 1, f.message))
  }

  /** The verdict on the bytes `data`, and the bytes that are left over. */
  function Meaning(x: Exchange, expected: Counts, data: seq<byte>): (Result<(bool, seq<byte>), Rejection>, seq<byte>) {
    if |data| < 29 then (Err(Stream(EndOfStream)), []) else
    var size := BigEndian(data[25..29]);
    if size > TEXT_LIMIT then (Err(OversizedText), data[29..]) else
    if |data| < 29 + size + 32 then (Err(Stream(EndOfStream)), []) else
    var f := Fields(data[..8], data[8..9], data[9..25], data[25..29], data[29..29 + size],
      data[29 + size..29 + size + 32]);
    (Judge(x, expected, f), data[29 + size + 32..])
  }

  /** Each rejection, and when it is given; the tag comes first. */
  lemma RejectionsAreOrdered(x: Exchange, expected: Counts, f: Fields)
    requires Shaped(f)
    ensures var judged := Judge(x, expected, f);
      var tagged := x.crypto.mac(x.key, x.context + x.requestTag + (f.magic + f.status + f.counts + f.size + f.message))
                    == f.tag;
      var known := tagged && f.magic == [0x4F, 0x41, 0x44, 0x42, 0x50, 0x32, 0x50, 0x32];
      var stated := known && (f.status == [0] || f.status == [1]);
      && (judged == Err(FailedAuthentication) <==> !tagged)
      && (judged == Err(UnsupportedResponse) <==> tagged && !known)
      && (judged == Err(InvalidStatus) <==> known && !stated)
      && (judged == Err(InconsistentCounts) <==> stated && f.status == [1] && CountsOf(f.counts) != expected)
      && (judged.Ok? ==> judged.value == (f.status == [1], f.message))
  {
    assert f.status == [f.status[0]];
  }

  /** A message of 65536 bytes can be read, a longer one cannot. */
  lemma LongestMessage(x: Exchange, expected: Counts, f: Fields, rest: seq<byte>)
    requires Shaped(f)
    ensures Meaning(x, expected, Joined(f) + f.tag + rest).0 == Err(OversizedText) <==> |f.message| > 65_536
  {
    MeaningOfFields(x, expected, f, rest);
  }

  predicate Shaped(f: Fields) {
    |f.magic| == 8 && |f.status| == 1 && |f.counts| == 16 && |f.size| == 4
    && |f.message| == BigEndian(f.size) && |f.tag| == 32
  }

  lemma FieldsAreSlices(f: Fields, rest: seq<byte>)
    requires Shaped(f)
    ensures var data, n := Joined(f) + f.tag + rest, |f.message|;
      |data| >= n + 61
      && data[..8] == f.magic && data[8..9] == f.status && data[9..25] == f.counts && data[25..29] == f.size
      && data[29..29 + n] == f.message && data[29 + n..29 + n + 32] == f.tag && data[29 + n + 32..] == rest
  {
    hide BigEndian;
    var head, tail := f.magic + f.status + f.counts + f.size, f.message + (f.tag + rest);
    assert head[..8] == f.magic && head[8..9] == f.status && head[9..25] == f.counts && head[25..29] == f.size;
    assert tail[..|f.message|] == f.message;
    assert tail[|f.message|..] == f.tag + rest && (f.tag + rest)[..32] == f.tag && (f.tag + rest)[32..] == rest;
    assert Joined(f) + f.tag + rest == head + tail;
  }

  lemma MeaningOfFields(x: Exchange, expected: Counts, f: Fields, rest: seq<byte>)
    requires Shaped(f)
    ensures Meaning(x, expected, Joined(f) + f.tag + rest)
      == if |f.message| > TEXT_LIMIT then (Err(OversizedText), f.message + f.tag + rest)
        else (Judge(x, expected, f), rest)
  {
    FieldsAreSlices(f, rest);
    hide Judge, BigEndian;
    if |f.message| > TEXT_LIMIT {
      var head, tail := f.magic + f.status + f.counts + f.size, f.message + f.tag + rest;
      assert Joined(f) + f.tag + rest == head + tail;
    }
  }

  lemma MeaningOfHead(x: Exchange, expected: Counts, head: seq<byte>, size: seq<byte>, rest: seq<byte>)
    requires |head| == 25 && |size| == 4
    ensures BigEndian(size) > TEXT_LIMIT ==> Meaning(x, expected, head + size + rest) == (Err(OversizedText), rest)
    ensures BigEndian(size) <= TEXT_LIMIT && |rest| < BigEndian(size) + 32 ==>
      Meaning(x, expected, head + size + rest) == (Err(Stream(EndOfStream)), [])
  {
    hide Judge, BigEndian;
    assert (head + size + rest)[25..29] == size && (head + size + rest)[29..] == rest;
  }

  /** The fields of fixed size, up to the length of the message. */
  method ReadHeader(stream: Stream) returns (r: Result<Fields, StreamError>)
    modifies stream`incoming, stream`cancelled
    ensures r.Ok? ==> |r.value.magic| == 8 && |r.value.status| == 1 && |r.value.counts| == 16 && |r.value.size| == 4
    ensures r.Ok? ==> r.value.message == r.value.tag == []
    ensures r.Ok? ==>
      old(stream.incoming) == r.value.magic + r.value.status + r.value.counts + r.value.size + stream.incoming
    ensures r == Err(EndOfStream) ==> |old(stream.incoming)| < 29 && stream.incoming == []
    ensures r == Err(Cancelled) ==> stream.cancelled
    ensures stream.cancelled ==> old(stream.cancelled) || (stream.cancellable && !stream.calm)
    ensures old(stream.cancelled) ==> stream.cancelled && (!stream.closed ==> r == Err(Cancelled))
    ensures stream.calm && !stream.closed && !old(stream.cancelled) ==> r.Ok? || r == Err(EndOfStream)
    ensures SuffixOf(stream.incoming, old(stream.incoming))
  {
    hide SuffixOf;
    ghost var data := stream.incoming;
    var magic := stream.ReadExact(8);
    if magic.Err? { return Err(magic.error); }
    ghost var taken, mid := magic.value, stream.incoming;
    var status := stream.ReadExact(1);
    SuffixAfter(stream.incoming, mid, taken);
    if status.Err? { return Err(status.error); }
    taken, mid := taken + status.value, stream.incoming;
    assert data == taken + mid;
    var counts := stream.ReadExact(16);
    SuffixAfter(stream.incoming, mid, taken);
    if counts.Err? { return Err(counts.error); }
    taken, mid := taken + counts.value, stream.incoming;
    assert data == taken + mid;
    var size := stream.ReadExact(4);
    SuffixAfter(stream.incoming, mid, taken);
    if size.Err? { return Err(size.error); }
    r := Ok(Fields(magic.value, status.value, counts.value, size.value, [], []));
  }

  /** The message and the tag. */
  method ReadTail(stream: Stream, size: nat) returns (r: Result<(seq<byte>, seq<byte>), StreamError>)
    modifies stream`incoming, stream`cancelled
    ensures r.Ok? ==> |r.value.0| == size && |r.value.1| == 32
    ensures r.Ok? ==> old(stream.incoming) == r.value.0 + r.value.1 + stream.incoming
    ensures r == Err(EndOfStream) ==> |old(stream.incoming)| < size + 32 && stream.incoming == []
    ensures r == Err(Cancelled) ==> stream.cancelled
    ensures stream.cancelled ==> old(stream.cancelled) || (stream.cancellable && !stream.calm)
    ensures stream.calm && !stream.closed && !old(stream.cancelled) ==> r.Ok? || r == Err(EndOfStream)
    ensures SuffixOf(stream.incoming, old(stream.incoming))
  {
    hide SuffixOf;
    ghost var data := stream.incoming;
    var message := stream.ReadExact(size);
    if message.Err? { return Err(message.error); }
    ghost var mid := stream.incoming;
    var tag := stream.ReadExact(32);
    SuffixAfter(stream.incoming, mid, message.value);
    if tag.Err? { return Err(tag.error); }
    r := Ok((message.value, tag.value));
  }

  /** However the network cuts the answer into pieces, reading it either stops on a failure of
      the connection itself, or gives the verdict on the bytes and leaves the bytes after it. */
  method ReadAuthenticatedResponse(stream: Stream, x: Exchange, expected: Counts)
    returns (r: Result<(bool, seq<byte>), Rejection>)
    modifies stream`incoming, stream`cancelled
    ensures (r.Err? && r.error.Stream? && r.error.cause != EndOfStream)
      || (r, stream.incoming) == Meaning(x, expected, old(stream.incoming))
    ensures stream.calm && !stream.closed && !old(stream.cancelled) ==>
      (r, stream.incoming) == Meaning(x, expected, old(stream.incoming))
    ensures r == Err(Stream(Cancelled)) ==> old(stream.cancelled) || (stream.cancellable && !stream.calm)
    ensures old(stream.cancelled) && !stream.closed ==> r == Err(Stream(Cancelled))
    ensures SuffixOf(stream.incoming, old(stream.incoming))
  {
    hide Judge, BigEndian, SuffixOf, Meaning;
    ghost var data := stream.incoming;
    NoHead(x, expected, data);
    var header := ReadHeader(stream);
    if header.Err? { return Err(Stream(header.error)); }
    var f := header.value;
    ghost var head := f.magic + f.status + f.counts;
    MeaningOfHead(x, expected, head, f.size, stream.incoming);
    ghost var taken, mid := head + f.size, stream.incoming;
    var size := BigEndian(f.size);
    if size > TEXT_LIMIT {
      return Err(OversizedText);
    }
    var tail := ReadTail(stream, size);
    SuffixAfter(stream.incoming, mid, taken);
    if tail.Err? { return Err(Stream(tail.error)); }
    var (message, tag) := tail.value;
    assert data == taken + message + tag + stream.incoming;
    f := f.(message := message, tag := tag);
    MeaningOfFields(x, expected, f, stream.incoming);
    r := Judge(x, expected, f);
    JudgedFromTheBytes(x, expected, f);
  }

  lemma JudgedFromTheBytes(x: Exchange, expected: Counts, f: Fields)
    requires |f.status| == 1 && |f.counts| == 16
    ensures Judge(x, expected, f).Err? ==> !Judge(x, expected, f).error.Stream?
  {
  }

  lemma SuffixAfter(part: seq<byte>, mid: seq<byte>, taken: seq<byte>)
    requires SuffixOf(part, mid)
    ensures SuffixOf(part, taken + mid)
  {
  }

  lemma NoHead(x: Exchange, expected: Counts, data: seq<byte>)
    ensures |data| < 29 ==> Meaning(x, expected, data) == (Err(Stream(EndOfStream)), [])
    ensures SuffixOf(data, data)
  {
  }

  // ---------------------------------------------------------------- the verdict is exact

  lemma CountsOfFrame(c: Counts)
    requires c.entries < 0x1_0000_0000 && c.files < 0x1_0000_0000 && c.bytes < 0x1_0000_0000_0000_0000
    ensures CountsOf(CountsFrame(c)) == c
  {
    PowersOf256();
    BigEndianOfBytes(c.entries, 4);
    BigEndianOfBytes(c.files, 4);
    BigEndianOfBytes(c.bytes, 8);
    var frame := CountsFrame(c);
    assert frame[..4] == ToBigEndian(c.entries, 4) && frame[4..8] == ToBigEndian(c.files, 4);
    assert frame[8..] == ToBigEndian(c.bytes, 8);
  }

  lemma FrameOfCounts(frame: seq<byte>)
    requires |frame| == 16
    ensures CountsFrame(CountsOf(frame)) == frame
    ensures CountsOf(frame).entries < 0x1_0000_0000 && CountsOf(frame).files < 0x1_0000_0000
    ensures CountsOf(frame).bytes < 0x1_0000_0000_0000_0000
  {
    PowersOf256();
    BytesOfBigEndian(frame[..4]);
    BytesOfBigEndian(frame[4..8]);
    BytesOfBigEndian(frame[8..]);
  }

  ghost predicate Answers(x: Exchange, expected: Counts, r: Response, data: seq<byte>, rest: seq<byte>) {
    && WellFormedResponse(r)
    && (r.success ==> r.counts == expected)
    && data == ResponseBytes(x, r) + rest
  }

  /** An encoded response reads back as its status and message, and takes exactly its bytes. */
  lemma EncodedResponseIsRead(x: Exchange, expected: Counts, r: Response, data: seq<byte>, rest: seq<byte>)
    requires Sized(x.crypto) && Answers(x, expected, r, data, rest)
    ensures Meaning(x, expected, data) == (Ok((r.success, r.message)), rest)
  {
    var size := ToBigEndian(|r.message|, 4);
    PowersOf256();
    BigEndianOfBytes(|r.message|, 4);
    CountsOfFrame(r.counts);
    var tag := ResponseTag(x, Payload(r));
    var f := Fields(MAGIC, StatusFrame(r.success), CountsFrame(r.counts), size, r.message, tag);
    assert Joined(f) == Payload(r);
    hide CountsFrame, ToBigEndian, BigEndian, ResponseTag, CountsOf;
    MeaningOfFields(x, expected, f, rest);
  }

  lemma Reassembled(data: seq<byte>, n: nat)
    requires |data| >= n + 61
    ensures data == data[..8] + data[8..9] + data[9..25] + data[25..29] + data[29..29 + n] + data[29 + n..29 + n + 32]
      + data[29 + n + 32..]
  {
  }

  /** A verdict is reached only on the encoding of a response whose tag covers the context, the
      request's tag and the payload, and success only with the expected counts. */
  lemma ReadResponseWasEncoded(x: Exchange, expected: Counts, data: seq<byte>) returns (r: Response)
    requires Meaning(x, expected, data).0.Ok?
    ensures Answers(x, expected, r, data, Meaning(x, expected, data).1)
    ensures Meaning(x, expected, data).0 == Ok((r.success, r.message))
  {
    var size := BigEndian(data[25..29]);
    var f := Fields(data[..8], data[8..9], data[9..25], data[25..29], data[29..29 + size],
      data[29 + size..29 + size + 32]);
    r := Response(f.status[0] == 1, CountsOf(f.counts), f.message);
    FrameOfCounts(f.counts);
    BytesOfBigEndian(f.size);
    hide CountsFrame, ToBigEndian, BigEndian, ResponseTag, CountsOf;
    assert f.status == StatusFrame(r.success);
    assert Joined(f) == Payload(r);
    Reassembled(data, size);
  }

  /** Both directions: these verdicts, and no others. */
  lemma VerdictsAreExact(x: Exchange, expected: Counts, data: seq<byte>, success: bool, message: seq<byte>,
                         rest: seq<byte>)
    requires Sized(x.crypto)
    ensures Meaning(x, expected, data) == (Ok((success, message)), rest) <==>
            exists counts :: Answers(x, expected, Response(success, counts, message), data, rest)
  {
    if Meaning(x, expected, data) == (Ok((success, message)), rest) {
      var r := ReadResponseWasEncoded(x, expected, data);
      assert Answers(x, expected, Response(success, r.counts, message), data, rest);
    }
    forall counts | Answers(x, expected, Response(success, counts, message), data, rest)
      ensures Meaning(x, expected, data) == (Ok((success, message)), rest)
    {
      EncodedResponseIsRead(x, expected, Response(success, counts, message), data, rest);
    }
  }

  /** A response that is cut off anywhere gives no verdict. */
  lemma TruncatedResponseIsNoVerdict(x: Exchange, expected: Counts, r: Response, n: nat)
    requires Sized(x.crypto) && WellFormedResponse(r) && n < |ResponseBytes(x, r)|
    ensures Meaning(x, expected, ResponseBytes(x, r)[..n]) == (Err(Stream(EndOfStream)), [])
  {
    var data := ResponseBytes(x, r);
    var cut := data[..n];
    if n >= 29 {
      PowersOf256();
      BigEndianOfBytes(|r.message|, 4);
      assert data[25..29] == ToBigEndian(|r.message|, 4);
      assert cut[25..29] == data[25..29];
    }
  }

  /** The answer to one request is no answer to another, as long as the two tags differ. */
  lemma AnswerIsBoundToTheRequest(x: Exchange, y: Exchange, expected: Counts, r: Response, rest: seq<byte>)
    requires Sized(x.crypto) && WellFormedResponse(r) && ResponseTag(x, Payload(r)) != ResponseTag(y, Payload(r))
    ensures Meaning(y, expected, ResponseBytes(x, r) + rest) == (Err(FailedAuthentication), rest)
  {
    var size := ToBigEndian(|r.message|, 4);
    PowersOf256();
    BigEndianOfBytes(|r.message|, 4);
    var f := Fields(MAGIC, StatusFrame(r.success), CountsFrame(r.counts), size, r.message, ResponseTag(x, Payload(r)));
    assert Joined(f) == Payload(r);
    hide CountsFrame, ToBigEndian, BigEndian, ResponseTag, CountsOf;
    MeaningOfFields(y, expected, f, rest);
  }

  /** What the tag covers, written out: the context, the request's tag, then the payload. */
  function Covered(x: Exchange, r: Response): seq<byte> {
    x.context + x.requestTag
    + [0x4F, 0x41, 0x44, 0x42, 0x50, 0x32, 0x50, 0x32] + [if r.success then 1 else 0]
    + ToBigEndian(r.counts.entries, 4) + ToBigEndian(r.counts.files, 4) + ToBigEndian(r.counts.bytes, 8)
    + ToBigEndian(|r.message|, 4) + r.message
  }

  lemma CoveredByTag(x: Exchange, r: Response)
    ensures Covered(x, r) == x.context + x.requestTag + Payload(r)
  {
  }

  lemma CoveredApart(x: Exchange, y: Exchange, r: Response)
    requires |x.context| == |y.context| && |x.requestTag| == |y.requestTag|
    requires x.context != y.context || x.requestTag != y.requestTag
    ensures Covered(x, r) != Covered(y, r)
  {
    CoveredByTag(x, r);
    CoveredByTag(y, r);
    var n, m := |x.context|, |x.requestTag|;
    var a, b := Covered(x, r), Covered(y, r);
    assert a[..n] == x.context && b[..n] == y.context;
    assert a[n..n + m] == x.requestTag && b[n..n + m] == y.requestTag;
  }

  /** A replayed answer: made for another request or another context, it fails authentication
      wherever the two inputs of the tag, written out, have different tags. */
  lemma ReplayIsRejected(x: Exchange, y: Exchange, expected: Counts, r: Response, rest: seq<byte>)
    requires Sized(x.crypto) && WellFormedResponse(r) && y.crypto == x.crypto && y.key == x.key
    requires |x.context| == |y.context| && |x.requestTag| == |y.requestTag|
    requires x.context != y.context || x.requestTag != y.requestTag
    requires Covered(x, r) != Covered(y, r) ==>
      x.crypto.mac(x.key, Covered(x, r)) != x.crypto.mac(x.key, Covered(y, r))
    ensures Meaning(y, expected, ResponseBytes(x, r) + rest) == (Err(FailedAuthentication), rest)
  {
    CoveredApart(x, y, r);
    CoveredByTag(x, r);
    CoveredByTag(y, r);
    AnswerIsBoundToTheRequest(x, y, expected, r, rest);
  }

  /** Whatever was changed on the way in context, request, key, status, counts or message: bytes
      that reach a verdict end in the tag of what is read, written out. */
  lemma VerdictIsTagged(x: Exchange, expected: Counts, data: seq<byte>) returns (r: Response)
    requires Meaning(x, expected, data).0.Ok?
    ensures Meaning(x, expected, data).0.value == (r.success, r.message) && (r.success ==> r.counts == expected)
    ensures var n := |Covered(x, r)| - |x.context| - |x.requestTag|;
      var tag := x.crypto.mac(x.key, Covered(x, r));
      data == Covered(x, r)[|x.context| + |x.requestTag|..] + tag + Meaning(x, expected, data).1 && n <= |data|
  {
    r := ReadResponseWasEncoded(x, expected, data);
    CoveredByTag(x, r);
    assert (x.context + x.requestTag + Payload(r))[|x.context| + |x.requestTag|..] == Payload(r);
  }

  // ---------------------------------------------------------------- request and answer together

  /** What a receiver counts in the frames it decoded. */
  function FileFrames(fs: seq<Frame>): nat {
    if fs == [] then 0 else FileFrames(fs[..|fs| - 1]) + if fs[|fs| - 1].FileFrame? then 1 else 0
  }

  function FrameSizes(fs: seq<Frame>): nat {
    if fs == [] then 0 else FrameSizes(fs[..|fs| - 1]) + if fs[|fs| - 1].FileFrame? then fs[|fs| - 1].size else 0
  }

  function CountsOfFrames(fs: seq<Frame>): Counts {
    Counts(|fs|, FileFrames(fs), FrameSizes(fs))
  }

  function CountsOfEntries(entries: seq<P2PEntry>): Counts {
    Counts(|entries|, |FilesOf(entries)|, FileBytes(entries))
  }

  lemma {:induction false} SentCounts(c: Crypto, ctx: Contexts, key: seq<byte>, entries: seq<P2PEntry>,
                                      payloads: seq<seq<byte>>)
    requires |payloads| == |entries|
    ensures CountsOfFrames(SentFrames(c, ctx, key, entries, payloads)) == CountsOfEntries(entries)
  {
    if entries != [] {
      var n := |entries| - 1;
      SentCounts(c, ctx, key, entries[..n], payloads[..n]);
      hide EntryTag, FileTag;
      var fs := SentFrames(c, ctx, key, entries, payloads);
      assert fs[..n] == SentFrames(c, ctx, key, entries[..n], payloads[..n]);
    }
  }

  /** A receiver that decodes the request from the wire and answers with what it counted is
      believed, for every request the sender can write. */
  lemma HonestReceiverIsBelieved(c: Crypto, ctx: Contexts, key: seq<byte>, entries: seq<P2PEntry>,
                                 payloads: seq<seq<byte>>, decoded: Request, x: Exchange, message: seq<byte>,
                                 rest: seq<byte>)
    requires Sized(c) && PayloadsFit(entries, payloads)
    requires |entries| < 0x1_0000_0000 && FileBytes(entries) < 0x1_0000_0000_0000_0000 && |message| <= TEXT_LIMIT
    requires Sized(x.crypto)
    requires DecodeRequest(RequestBytes(SentRequest(c, ctx, key, entries, payloads))) == Some((decoded, []))
    ensures Meaning(x, CountsOfEntries(entries),
                    ResponseBytes(x, Response(true, CountsOfFrames(decoded.frames), message)) + rest)
      == (Ok((true, message)), rest)
  {
    DecodedCounts(c, ctx, key, entries, payloads, decoded);
    FewerFiles(entries);
    var r := Response(true, CountsOfEntries(entries), message);
    var data := ResponseBytes(x, r) + rest;
    assert Answers(x, CountsOfEntries(entries), r, data, rest);
    EncodedResponseIsRead(x, CountsOfEntries(entries), r, data, rest);
  }

  lemma DecodedCounts(c: Crypto, ctx: Contexts, key: seq<byte>, entries: seq<P2PEntry>, payloads: seq<seq<byte>>,
                      decoded: Request)
    requires Sized(c) && PayloadsFit(entries, payloads) && |entries| < 0x1_0000_0000
    requires DecodeRequest(RequestBytes(SentRequest(c, ctx, key, entries, payloads))) == Some((decoded, []))
    ensures CountsOfFrames(decoded.frames) == CountsOfEntries(entries)
  {
    hide RequestBytes, DecodeRequest;
    var request := SentRequest(c, ctx, key, entries, payloads);
    SentRequestIsDecodable(c, ctx, key, entries, payloads, []);
    assert RequestBytes(request) + [] == RequestBytes(request);
    SentCounts(c, ctx, key, entries, payloads);
  }

  lemma {:induction false} FewerFiles(entries: seq<P2PEntry>)
    ensures |FilesOf(entries)| <= |entries|
  {
    if entries != [] {
      FewerFiles(entries[..|entries| - 1]);
    }
  }
}
