/** The binary P2P upload request and its transcript
    (`openadb/core/acbridge_p2p.py`, `_upload_entry_batch`, `_text_frame`,
    `_write_authenticated`).  HMAC-SHA-256 (RFC 2104) and SHA-256 are functions to 32 bytes. */
module RequestFraming {
  import opened Bytes
  import opened P2PEntries
  import opened Wrappers

  datatype Crypto = Crypto(mac: (seq<byte>, seq<byte>) -> seq<byte>, hash: seq<byte> -> seq<byte>)

  ghost predicate Sized(c: Crypto) {
    && (forall key, data :: |c.mac(key, data)| == 32)
    && (forall data :: |c.hash(data)| == 32)
  }

  const TEXT_LIMIT: nat := 65_536
  /** "OADBP2P2" */
  const MAGIC: seq<byte> := [0x4F, 0x41, 0x44, 0x42, 0x50, 0x32, 0x50, 0x32]

  /** The context strings that keep the uses of one key apart. */
  datatype Contexts = Contexts(request: seq<byte>, entry: seq<byte>)

  // ---------------------------------------------------------------- the layout

  /** One entry on the wire; a directory has no size, payload or digests. */
  datatype Frame =
    | DirectoryFrame(path: seq<byte>, tag: seq<byte>)
    | FileFrame(path: seq<byte>, size: nat, tag: seq<byte>, payload: seq<byte>, digest: seq<byte>,
                authenticator: seq<byte>)

  predicate WellFormed(f: Frame) {
    && |f.path| <= TEXT_LIMIT && |f.tag| == 32
    && (f.FileFrame? ==>
         f.size < 0x1_0000_0000_0000_0000 && |f.payload| == f.size && |f.digest| == 32 && |f.authenticator| == 32)
  }

  ghost predicate AllWellFormed(fs: seq<Frame>) {
    forall i :: 0 <= i < |fs| ==> WellFormed(fs[i])
  }

  /** `_text_frame`. */
  function TextFrame(text: seq<byte>): seq<byte> {
    ToBigEndian(|text|, 4) + text
  }

  function ControlFrame(path: seq<byte>, size: Option<nat>): seq<byte> {
    [if size.None? then 0 else 1] + TextFrame(path) + if size.None? then [] else ToBigEndian(size.value, 8)
  }

  function SizeOf(f: Frame): Option<nat> {
    if f.DirectoryFrame? then None else Some(f.size)
  }

  /** What a frame adds to the stream, and what it adds to the transcript. */
  function FrameBytes(f: Frame): seq<byte> {
    ControlFrame(f.path, SizeOf(f)) + f.tag
    + if f.DirectoryFrame? then [] else f.payload + f.digest + f.authenticator
  }

  function FrameTranscript(f: Frame): seq<byte> {
    ControlFrame(f.path, SizeOf(f)) + f.tag + if f.DirectoryFrame? then [] else f.digest + f.authenticator
  }

  function AllBytes(fs: seq<Frame>): seq<byte> {
    if fs == [] then [] else FrameBytes(fs[0]) + AllBytes(fs[1..])
  }

  function AllTranscripts(fs: seq<Frame>): seq<byte> {
    if fs == [] then [] else FrameTranscript(fs[0]) + AllTranscripts(fs[1..])
  }

  function Transcript(fs: seq<Frame>): seq<byte> {
    ToBigEndian(|fs|, 4) + AllTranscripts(fs)
  }

  /** A whole request: magic, its tag, count, frames, and the transcript's tag. */
  datatype Request = Request(opening: seq<byte>, frames: seq<Frame>, closing: seq<byte>)

  ghost predicate WellFormedRequest(r: Request) {
    |r.opening| == 32 && |r.closing| == 32 && |r.frames| < 0x1_0000_0000 && AllWellFormed(r.frames)
  }

  function RequestBytes(r: Request): seq<byte> {
    MAGIC + r.opening + ToBigEndian(|r.frames|, 4) + AllBytes(r.frames) + r.closing
  }

  // ---------------------------------------------------------------- a decoder for the layout

  /** Kind, path, size, tag, and what follows. */
  function DecodeControl(data: seq<byte>): Option<(seq<byte>, Option<nat>, seq<byte>, seq<byte>)> {
    if |data| < 5 || data[0] > 1 then None else
    var length := BigEndian(data[1..5]);
    if length > TEXT_LIMIT || 5 + length > |data| then None else
    var path, rest := data[5..5 + length], data[5 + length..];
    if data[0] == 0 then
      if |rest| < 32 then None else Some((path, None, rest[..32], rest[32..]))
    else
      if |rest| < 40 then None else Some((path, Some(BigEndian(rest[..8])), rest[8..40], rest[40..]))
  }

  function DecodeFrame(data: seq<byte>, withPayload: bool): Option<(Frame, seq<byte>)> {
    match DecodeControl(data)
    case None => None
    case Some((path, None, tag, rest)) => Some((DirectoryFrame(path, tag), rest))
    case Some((path, Some(size), tag, rest)) =>
      var payload := if withPayload then size else 0;
      if payload + 64 > |rest| then None else
      Some((FileFrame(path, size, tag, rest[..payload], rest[payload..payload + 32], rest[payload + 32..payload + 64]),
            rest[payload + 64..]))
  }

  function DecodeFrames(data: seq<byte>, count: nat, withPayload: bool): Option<(seq<Frame>, seq<byte>)> {
    if count == 0 then Some(([], data)) else
    match DecodeFrame(data, withPayload)
    case None => None
    case Some((f, rest)) =>
      match DecodeFrames(rest, count - 1, withPayload)
      case None => None
      case Some((fs, tail)) => Some(([f] + fs, tail))
  }

  /** The request at the start of `data`, and what follows it. */
  function DecodeRequest(data: seq<byte>): Option<(Request, seq<byte>)> {
    if |data| < 44 || data[..8] != MAGIC then None else
    match DecodeFrames(data[44..], BigEndian(data[40..44]), true)
    case None => None
    case Some((fs, rest)) =>
      if |rest| < 32 then None else Some((Request(data[8..40], fs, rest[..32]), rest[32..]))
  }

  // ---------------------------------------------------------------- round trips

  lemma DecodeControlOfEncoded(path: seq<byte>, size: Option<nat>, tag: seq<byte>, rest: seq<byte>)
    requires |path| <= TEXT_LIMIT && |tag| == 32 && (size.Some? ==> size.value < 0x1_0000_0000_0000_0000)
    ensures DecodeControl(ControlFrame(path, size) + tag + rest) == Some((path, size, tag, rest))
  {
    PowersOf256();
    BigEndianOfBytes(|path|, 4);
    if size.Some? { BigEndianOfBytes(size.value, 8); }
    hide *;
    if size.Some? {
      FileControlReadsBack(path, size.value, tag, rest);
    } else {
      DirectoryControlReadsBack(path, tag, rest);
    }
  }

  lemma FileControlReadsBack(path: seq<byte>, size: nat, tag: seq<byte>, rest: seq<byte>)
    requires |path| <= TEXT_LIMIT && |tag| == 32
    requires BigEndian(ToBigEndian(|path|, 4)) == |path| && BigEndian(ToBigEndian(size, 8)) == size
    ensures DecodeControl(ControlFrame(path, Some(size)) + tag + rest) == Some((path, Some(size), tag, rest))
  {
    var length, width := ToBigEndian(|path|, 4), ToBigEndian(size, 8);
    var tail := width + tag + rest;
    ControlPieces(1, length, path, tail);
    SixPieces([1], length, path, width, tag, rest);
    hide ToBigEndian, BigEndian, DecodeControl;
    assert tail[..8] == width && tail[8..40] == tag && tail[40..] == rest;
    ControlFromPieces([1] + length + path + tail, path);
  }

  lemma DirectoryControlReadsBack(path: seq<byte>, tag: seq<byte>, rest: seq<byte>)
    requires |path| <= TEXT_LIMIT && |tag| == 32 && BigEndian(ToBigEndian(|path|, 4)) == |path|
    ensures DecodeControl(ControlFrame(path, None) + tag + rest) == Some((path, None, tag, rest))
  {
    var length := ToBigEndian(|path|, 4);
    ControlPieces(0, length, path, tag + rest);
    SixPieces([0], length, path, [], tag, rest);
    hide ToBigEndian, BigEndian, DecodeControl;
    assert (tag + rest)[..32] == tag && (tag + rest)[32..] == rest;
    var none: seq<byte> := [];
    assert none + tag == tag;
    ControlFromPieces([0] + length + path + (tag + rest), path);
  }

  lemma SixPieces(a: seq<byte>, b: seq<byte>, c: seq<byte>, d: seq<byte>, e: seq<byte>, f: seq<byte>)
    ensures a + (b + c) + d + e + f == a + b + c + (d + e + f)
  {
  }

  /** What the decoder makes of data whose first pieces are known. */
  lemma ControlFromPieces(data: seq<byte>, path: seq<byte>)
    requires |data| >= 5 + |path| + 32 && |path| <= TEXT_LIMIT
    requires BigEndian(data[1..5]) == |path| && data[5..5 + |path|] == path
    ensures var rest := data[5 + |path|..];
      && (data[0] == 0 ==> DecodeControl(data) == Some((path, None, rest[..32], rest[32..])))
      && (data[0] == 1 && |rest| >= 40 ==>
            DecodeControl(data) == Some((path, Some(BigEndian(rest[..8])), rest[8..40], rest[40..])))
  {
    hide BigEndian;
  }

  lemma ControlPieces(kind: byte, length: seq<byte>, path: seq<byte>, tail: seq<byte>)
    requires |length| == 4
    ensures var data := [kind] + length + path + tail; var at := 5 + |path|;
      data[0] == kind && data[1..5] == length && data[5..at] == path && data[at..] == tail
  {
  }

  /** The frame without its payload, as the transcript shows it. */
  function Bare(f: Frame): Frame {
    if f.DirectoryFrame? then f else f.(payload := [])
  }

  function Bares(fs: seq<Frame>): (bares: seq<Frame>)
    ensures |bares| == |fs|
  {
    if fs == [] then [] else [Bare(fs[0])] + Bares(fs[1..])
  }

  lemma DecodeFrameOfEncoded(f: Frame, rest: seq<byte>)
    requires WellFormed(f)
    ensures DecodeFrame(FrameBytes(f) + rest, true) == Some((f, rest))
    ensures DecodeFrame(FrameTranscript(f) + rest, false) == Some((Bare(f), rest))
  {
    hide ControlFrame, DecodeControl;
    var control := ControlFrame(f.path, SizeOf(f));
    if f.DirectoryFrame? {
      DecodeControlOfEncoded(f.path, None, f.tag, rest);
      assert FrameBytes(f) + rest == FrameTranscript(f) + rest == control + f.tag + rest;
    } else {
      var tail := f.payload + f.digest + f.authenticator + rest;
      DecodeControlOfEncoded(f.path, Some(f.size), f.tag, tail);
      assert FrameBytes(f) + rest == control + f.tag + tail;
      assert tail[..f.size] == f.payload && tail[f.size..f.size + 32] == f.digest;
      assert tail[f.size + 32..f.size + 64] == f.authenticator && tail[f.size + 64..] == rest;
      var bare := f.digest + f.authenticator + rest;
      DecodeControlOfEncoded(f.path, Some(f.size), f.tag, bare);
      assert FrameTranscript(f) + rest == control + f.tag + bare;
      assert bare[..32] == f.digest && bare[32..64] == f.authenticator && bare[64..] == rest;
    }
  }

  lemma {:induction false} DecodeFramesOfBytes(fs: seq<Frame>, rest: seq<byte>)
    requires AllWellFormed(fs)
    ensures DecodeFrames(AllBytes(fs) + rest, |fs|, true) == Some((fs, rest))
  {
    hide DecodeFrame, FrameBytes, WellFormed;
    if fs == [] {
      assert AllBytes(fs) + rest == rest;
    } else {
      DecodeFramesOfBytes(fs[1..], rest);
      DecodeFrameOfEncoded(fs[0], AllBytes(fs[1..]) + rest);
      assert AllBytes(fs) + rest == FrameBytes(fs[0]) + (AllBytes(fs[1..]) + rest);
      assert fs == [fs[0]] + fs[1..];
    }
  }

  lemma {:induction false} DecodeFramesOfTranscripts(fs: seq<Frame>, rest: seq<byte>)
    requires AllWellFormed(fs)
    ensures DecodeFrames(AllTranscripts(fs) + rest, |fs|, false) == Some((Bares(fs), rest))
  {
    hide DecodeFrame, FrameTranscript, WellFormed, Bare;
    if fs == [] {
      assert AllTranscripts(fs) + rest == rest;
    } else {
      DecodeFramesOfTranscripts(fs[1..], rest);
      DecodeFrameOfEncoded(fs[0], AllTranscripts(fs[1..]) + rest);
      assert AllTranscripts(fs) + rest == FrameTranscript(fs[0]) + (AllTranscripts(fs[1..]) + rest);
    }
  }

  lemma FourPieces(a: seq<byte>, b: seq<byte>, c: seq<byte>, d: seq<byte>)
    requires |a| == 8 && |b| == 32 && |c| == 4
    ensures (a + b + c + d)[..8] == a && (a + b + c + d)[8..40] == b
    ensures (a + b + c + d)[40..44] == c && (a + b + c + d)[44..] == d
  {
  }

  /** The decoder inverts the layout, whatever bytes follow. */
  lemma DecodeInvertsEncode(r: Request, rest: seq<byte>)
    requires WellFormedRequest(r)
    ensures DecodeRequest(RequestBytes(r) + rest) == Some((r, rest))
  {
    var count, magic, body := ToBigEndian(|r.frames|, 4), MAGIC, AllBytes(r.frames);
    PowersOf256();
    BigEndianOfBytes(|r.frames|, 4);
    DecodeFramesOfBytes(r.frames, r.closing + rest);
    FourPieces(magic, r.opening, count, body + (r.closing + rest));
    hide AllBytes, DecodeFrames, ToBigEndian, BigEndian, WellFormed, AllWellFormed, Pow256;
    assert RequestBytes(r) + rest == magic + r.opening + count + (body + (r.closing + rest)) by {
      Regroup(magic + r.opening + count, body, r.closing, rest);
    }
    assert (r.closing + rest)[..32] == r.closing && (r.closing + rest)[32..] == rest;
  }

  lemma Regroup(a: seq<byte>, b: seq<byte>, c: seq<byte>, d: seq<byte>)
    ensures a + b + c + d == a + (b + (c + d))
  {
  }

  /** No request is a proper prefix of another one. */
  lemma RequestsArePrefixFree(a: Request, b: Request)
    requires WellFormedRequest(a) && WellFormedRequest(b) && RequestBytes(a) <= RequestBytes(b)
    ensures a == b
  {
    var rest := RequestBytes(b)[|RequestBytes(a)|..];
    DecodeInvertsEncode(a, rest);
    DecodeInvertsEncode(b, []);
    assert RequestBytes(a) + rest == RequestBytes(b) == RequestBytes(b) + [];
  }

  // ---------------------------------------------------------------- requests that break off

  /** What a sender has on the stream when more is to come. */
  ghost predicate Unfinished(sent: seq<byte>) {
    exists r :: WellFormedRequest(r) && sent <= RequestBytes(r) && sent != RequestBytes(r)
  }

  lemma ControlIgnoresTheRest(data: seq<byte>, more: seq<byte>)
    requires DecodeControl(data).Some?
    ensures var (path, size, tag, rest) := DecodeControl(data).value;
      DecodeControl(data + more) == Some((path, size, tag, rest + more))
  {
    var all := data + more;
    var at := 5 + BigEndian(data[1..5]);
    assert all[1..5] == data[1..5] && all[5..at] == data[5..at] && all[at..] == data[at..] + more;
    var rest, rest' := data[at..], all[at..];
    if data[0] == 0 {
      assert rest'[..32] == rest[..32] && rest'[32..] == rest[32..] + more;
    } else {
      assert rest'[..8] == rest[..8] && rest'[8..40] == rest[8..40] && rest'[40..] == rest[40..] + more;
    }
  }

  lemma FrameIgnoresTheRest(data: seq<byte>, more: seq<byte>)
    requires DecodeFrame(data, true).Some?
    ensures var (f, rest) := DecodeFrame(data, true).value; DecodeFrame(data + more, true) == Some((f, rest + more))
  {
    ControlIgnoresTheRest(data, more);
    hide DecodeControl;
    var (_, size, _, rest) := DecodeControl(data).value;
    if size.Some? {
      var n, all := size.value, rest + more;
      assert all[..n] == rest[..n] && all[n..n + 32] == rest[n..n + 32];
      assert all[n + 32..n + 64] == rest[n + 32..n + 64] && all[n + 64..] == rest[n + 64..] + more;
    }
  }

  lemma {:induction false} FramesIgnoreTheRest(data: seq<byte>, count: nat, more: seq<byte>)
    requires DecodeFrames(data, count, true).Some?
    ensures var (fs, rest) := DecodeFrames(data, count, true).value;
      DecodeFrames(data + more, count, true) == Some((fs, rest + more))
    decreases count
  {
    hide DecodeFrame;
    if count > 0 {
      FrameIgnoresTheRest(data, more);
      FramesIgnoreTheRest(DecodeFrame(data, true).value.1, count - 1, more);
    }
  }

  lemma RequestIgnoresTheRest(data: seq<byte>, more: seq<byte>)
    requires DecodeRequest(data).Some?
    ensures var (r, rest) := DecodeRequest(data).value; DecodeRequest(data + more) == Some((r, rest + more))
  {
    hide DecodeFrames, BigEndian;
    var all := data + more;
    assert all[..8] == data[..8] && all[8..40] == data[8..40] && all[40..44] == data[40..44];
    assert all[44..] == data[44..] + more;
    FramesIgnoreTheRest(data[44..], BigEndian(data[40..44]), more);
    var rest := DecodeFrames(data[44..], BigEndian(data[40..44]), true).value.1;
    assert (rest + more)[..32] == rest[..32] && (rest + more)[32..] == rest[32..] + more;
  }

  lemma NothingMore(sent: seq<byte>, more: seq<byte>)
    requires DecodeRequest(sent).Some?
    ensures DecodeRequest(sent + more).Some? && (DecodeRequest(sent + more).value.1 == [] ==> more == [])
  {
    RequestIgnoresTheRest(sent, more);
    hide DecodeRequest;
    assert |DecodeRequest(sent).value.1 + more| >= |more|;
  }

  /** A receiver that follows the layout finds no request in what broke off. */
  lemma UnfinishedIsNoRequest(sent: seq<byte>)
    requires Unfinished(sent)
    ensures DecodeRequest(sent).None?
  {
    var r :| WellFormedRequest(r) && sent <= RequestBytes(r) && sent != RequestBytes(r);
    var more := RequestBytes(r)[|sent|..];
    assert more != [] && sent + more == RequestBytes(r) == RequestBytes(r) + [];
    DecodeInvertsEncode(r, []);
    hide DecodeRequest, RequestBytes, WellFormedRequest;
    if DecodeRequest(sent).Some? {
      NothingMore(sent, more);
    }
  }

  /** What comes before the frames. */
  function Head(opening: seq<byte>, count: nat): seq<byte> {
    MAGIC + opening + ToBigEndian(count, 4)
  }

  function Fillers(n: nat): (fs: seq<Frame>)
    ensures |fs| == n && AllWellFormed(fs)
  {
    seq(n, i => DirectoryFrame([], Zeros(32)))
  }

  lemma Associate(a: seq<byte>, b: seq<byte>, c: seq<byte>)
    ensures a + (b + c) == (a + b) + c
  {
  }

  lemma {:induction false} AllBytesConcat(fs: seq<Frame>, gs: seq<Frame>)
    ensures AllBytes(fs + gs) == AllBytes(fs) + AllBytes(gs)
  {
    hide FrameBytes;
    if fs == [] {
      assert fs + gs == gs;
    } else {
      AllBytesConcat(fs[1..], gs);
      assert (fs + gs)[1..] == fs[1..] + gs && (fs + gs)[0] == fs[0];
      Associate(FrameBytes(fs[0]), AllBytes(fs[1..]), AllBytes(gs));
    }
  }

  lemma Reassociate(a: seq<byte>, b: seq<byte>, c: seq<byte>, d: seq<byte>)
    ensures a + (b + c) + d == (a + b) + (c + d)
  {
  }

  lemma PrefixExtends(a: seq<byte>, b: seq<byte>, more: seq<byte>)
    requires a <= b
    ensures a <= b + more && (more != [] ==> a != b + more)
  {
  }

  /** Whoever has not got past the announced frames has not finished. */
  lemma WithinIsUnfinished(opening: seq<byte>, count: nat, fs: seq<Frame>, sent: seq<byte>)
    requires |opening| == 32 && count < 0x1_0000_0000 && |fs| <= count && AllWellFormed(fs)
    requires sent <= Head(opening, count) + AllBytes(fs)
    ensures Unfinished(sent)
  {
    hide AllBytes, ToBigEndian, WellFormed;
    var fillers := Fillers(count - |fs|);
    var r := Request(opening, fs + fillers, Zeros(32));
    AllBytesConcat(fs, fillers);
    assert WellFormedRequest(r);
    assert RequestBytes(r) == Head(opening, count) + (AllBytes(fs) + AllBytes(fillers)) + r.closing;
    Reassociate(Head(opening, count), AllBytes(fs), AllBytes(fillers), r.closing);
    PrefixExtends(sent, Head(opening, count) + AllBytes(fs), AllBytes(fillers) + r.closing);
  }

  // ---------------------------------------------------------------- transcripts

  /** Equal transcripts mean equal counts, kinds, paths, sizes, tags and digests in the same
      order, although the payload is not part of the transcript. */
  lemma TranscriptFixesTheFrames(fs: seq<Frame>, gs: seq<Frame>)
    requires AllWellFormed(fs) && AllWellFormed(gs) && |fs| < 0x1_0000_0000 && |gs| < 0x1_0000_0000
    requires Transcript(fs) == Transcript(gs)
    ensures Bares(fs) == Bares(gs)
  {
    PowersOf256();
    BigEndianOfBytes(|fs|, 4);
    BigEndianOfBytes(|gs|, 4);
    assert Transcript(fs)[..4] == ToBigEndian(|fs|, 4) && Transcript(gs)[..4] == ToBigEndian(|gs|, 4);
    assert AllTranscripts(fs) == Transcript(fs)[4..] && AllTranscripts(gs) == Transcript(gs)[4..];
    assert AllTranscripts(fs) + [] == AllTranscripts(fs) && AllTranscripts(gs) + [] == AllTranscripts(gs);
    DecodeFramesOfTranscripts(fs, []);
    DecodeFramesOfTranscripts(gs, []);
  }

  lemma {:induction false} BaresAt(fs: seq<Frame>, i: nat)
    requires i < |fs|
    ensures Bares(fs)[i] == Bare(fs[i])
  {
    if i > 0 {
      BaresAt(fs[1..], i - 1);
    }
  }

  /** With a hash that keeps the payloads apart, equal transcripts even mean equal payloads. */
  lemma TranscriptFixesThePayloads(c: Crypto, fs: seq<Frame>, gs: seq<Frame>, i: nat)
    requires Bares(fs) == Bares(gs) && i < |fs|
    requires fs[i].FileFrame? ==> fs[i].digest == c.hash(fs[i].payload)
    requires gs[i].FileFrame? ==> gs[i].digest == c.hash(gs[i].payload)
    requires fs[i].FileFrame? && gs[i].FileFrame? && c.hash(fs[i].payload) == c.hash(gs[i].payload) ==>
      fs[i].payload == gs[i].payload
    ensures fs[i] == gs[i]
  {
    BaresAt(fs, i);
    BaresAt(gs, i);
  }

  // ---------------------------------------------------------------- the sender

  function EntryControl(e: P2PEntry): seq<byte> {
    ControlFrame(e.path, if e.isDirectory then None else Some(e.size))
  }

  function EntryTag(c: Crypto, ctx: Contexts, key: seq<byte>, index: nat, e: P2PEntry): seq<byte> {
    c.mac(key, ctx.entry + ToBigEndian(index, 4) + EntryControl(e))
  }

  function FileTag(c: Crypto, key: seq<byte>, e: P2PEntry, payload: seq<byte>): seq<byte> {
    c.mac(key, e.path + [0] + ToBigEndian(e.size, 8) + payload)
  }

  /** What the sender puts into the frame of one entry. */
  function SentFrame(c: Crypto, ctx: Contexts, key: seq<byte>, index: nat, e: P2PEntry, payload: seq<byte>): Frame {
    var tag := EntryTag(c, ctx, key, index, e);
    if e.isDirectory then DirectoryFrame(e.path, tag)
    else FileFrame(e.path, e.size, tag, payload, c.hash(payload), FileTag(c, key, e, payload))
  }

  lemma SentFrameParts(c: Crypto, ctx: Contexts, key: seq<byte>, index: nat, e: P2PEntry, payload: seq<byte>,
                       before: seq<byte>)
    ensures var start := before + EntryControl(e) + EntryTag(c, ctx, key, index, e);
            var f := SentFrame(c, ctx, key, index, e, payload);
            before + FrameBytes(f)
            == if e.isDirectory then start else start + payload + c.hash(payload) + FileTag(c, key, e, payload)
    ensures var start := before + EntryControl(e) + EntryTag(c, ctx, key, index, e);
            before + FrameTranscript(SentFrame(c, ctx, key, index, e, payload))
            == if e.isDirectory then start else start + c.hash(payload) + FileTag(c, key, e, payload)
  {
    hide ControlFrame, FileTag, EntryTag;
  }

  function SentFrames(c: Crypto, ctx: Contexts, key: seq<byte>, entries: seq<P2PEntry>,
                      payloads: seq<seq<byte>>): (fs: seq<Frame>)
    requires |payloads| == |entries|
    ensures |fs| == |entries|
  {
    if entries == [] then [] else
    var n := |entries| - 1;
    SentFrames(c, ctx, key, entries[..n], payloads[..n]) + [SentFrame(c, ctx, key, n, entries[n], payloads[n])]
  }

  function SentRequest(c: Crypto, ctx: Contexts, key: seq<byte>, entries: seq<P2PEntry>,
                       payloads: seq<seq<byte>>): Request
    requires |payloads| == |entries|
  {
    var fs := SentFrames(c, ctx, key, entries, payloads);
    Request(c.mac(key, MAGIC), fs, c.mac(key, ctx.request + Transcript(fs)))
  }

  /** What the protocol's fields can carry. */
  predicate Sendable(e: P2PEntry) {
    |e.path| <= TEXT_LIMIT && (!e.isDirectory ==> e.size < 0x1_0000_0000_0000_0000)
  }

  ghost predicate PayloadsFit(entries: seq<P2PEntry>, payloads: seq<seq<byte>>) {
    |payloads| == |entries|
    && forall i :: 0 <= i < |entries| ==>
       Sendable(entries[i]) && |payloads[i]| == if entries[i].isDirectory then 0 else entries[i].size
  }

  lemma {:induction false} SentFramesAreWellFormed(c: Crypto, ctx: Contexts, key: seq<byte>, entries: seq<P2PEntry>,
                                                   payloads: seq<seq<byte>>)
    requires Sized(c) && PayloadsFit(entries, payloads)
    ensures AllWellFormed(SentFrames(c, ctx, key, entries, payloads))
  {
    if entries != [] {
      SentFramesAreWellFormed(c, ctx, key, entries[..|entries| - 1], payloads[..|entries| - 1]);
    }
  }

  lemma {:induction false} AllBytesAppend(fs: seq<Frame>, f: Frame)
    ensures AllBytes(fs + [f]) == AllBytes(fs) + FrameBytes(f)
    ensures AllTranscripts(fs + [f]) == AllTranscripts(fs) + FrameTranscript(f)
  {
    hide FrameBytes, FrameTranscript;
    if fs == [] {
      assert [f][1..] == [];
    } else {
      AllBytesAppend(fs[1..], f);
      assert (fs + [f])[1..] == fs[1..] + [f];
    }
  }

  /** The local file still has the listed size. */
  predicate AsListed(e: P2PEntry, disk: seq<byte>) {
    e.isDirectory || |disk| == e.size
  }

  /** A piece of a frame was added. */
  ghost predicate WithinFrame(before: seq<byte>, now: seq<byte>) {
    exists f :: WellFormed(f) && now <= before + FrameBytes(f)
  }

  lemma WithinSentFrame(c: Crypto, ctx: Contexts, key: seq<byte>, index: nat, e: P2PEntry, payload: seq<byte>,
                        before: seq<byte>, now: seq<byte>)
    requires Sendable(e) && (e.isDirectory || |payload| == e.size)
    requires now <= before + FrameBytes(SentFrame(c, ctx, key, index, e, payload))
    ensures Sized(c) ==> WithinFrame(before, now)
  {
    hide ControlFrame, FrameBytes, ToBigEndian;
    if Sized(c) {
      assert WellFormed(SentFrame(c, ctx, key, index, e, payload));
    }
  }

  lemma SentFramePieces(c: Crypto, ctx: Contexts, key: seq<byte>, index: nat, e: P2PEntry, payload: seq<byte>,
                        before: seq<byte>, now: seq<byte>)
    requires now <= before + EntryControl(e) || now <= before + EntryControl(e) + EntryTag(c, ctx, key, index, e)
    ensures now <= before + FrameBytes(SentFrame(c, ctx, key, index, e, payload))
  {
    SentFrameParts(c, ctx, key, index, e, payload, before);
    hide EntryControl, EntryTag, FileTag, FrameBytes, SentFrame;
    var start := before + EntryControl(e);
    var tagged := start + EntryTag(c, ctx, key, index, e);
    if now <= start {
      PrefixExtends(now, start, EntryTag(c, ctx, key, index, e));
    }
    PrefixExtends(now, tagged, payload);
    PrefixExtends(now, tagged + payload, c.hash(payload));
    PrefixExtends(now, tagged + payload + c.hash(payload), FileTag(c, key, e, payload));
  }

  lemma NothingIsWithin(before: seq<byte>)
    ensures WithinFrame(before, before)
  {
    assert before <= before + FrameBytes(Fillers(1)[0]);
  }

  lemma ControlIsNotEmpty(e: P2PEntry)
    ensures EntryControl(e) != []
  {
  }

  class Sender {
    const crypto: Crypto
    const contexts: Contexts
    const key: seq<byte>
    /** Nobody cancels, the connection holds, and the local files can be read. */
    const calm: bool
    /** No other program changes the local files during the transfer. */
    const steady: bool
    /** The user's cancel flag; once set it stays. */
    var cancelled: bool
    var sent: seq<byte>
    var transcript: seq<byte>
    var sentBytes: nat
    var sentFiles: nat

    constructor (crypto: Crypto, contexts: Contexts, key: seq<byte>, calm: bool, steady: bool)
      ensures sent == [] && transcript == [] && sentBytes == 0 && sentFiles == 0
      ensures this.crypto == crypto && this.contexts == contexts && this.key == key
      ensures this.calm == calm && this.steady == steady && !cancelled
    {
      this.crypto, this.contexts, this.key := crypto, contexts, key;
      this.calm, this.steady := calm, steady;
      sent, transcript, sentBytes, sentFiles, cancelled := [], [], 0, 0, false;
    }

    method IsCancelled() returns (yes: bool)
      modifies this`cancelled
      ensures yes == cancelled && (old(cancelled) ==> yes) && (calm && yes ==> old(cancelled))
    {
      var now: bool := *;
      cancelled := cancelled || (now && !calm);
      yes := cancelled;
    }

    /** The stream's write: all of the data, or a proper prefix of it when the connection breaks
        or the user cancels. */
    method Write(data: seq<byte>) returns (ok: bool)
      modifies this`sent, this`cancelled
      ensures old(sent) <= sent && sent <= old(sent) + data
      ensures ok <==> sent == old(sent) + data
      ensures calm && !old(cancelled) ==> ok
      ensures (old(cancelled) ==> cancelled) && (calm && !old(cancelled) ==> !cancelled)
      ensures old(cancelled) && data != [] ==> !ok && sent == old(sent)
    {
      var written: int := *;
      var stop := IsCancelled();
      if stop && data != [] {
        return false;
      }
      ok := calm || !(0 <= written < |data|);
      sent := sent + if ok then data else data[..written];
    }

    /** `_write_authenticated`: what was not written in full is not in the transcript. */
    method WriteAuthenticated(data: seq<byte>) returns (ok: bool)
      modifies this`sent, this`transcript, this`cancelled
      ensures old(sent) <= sent && sent <= old(sent) + data
      ensures ok <==> sent == old(sent) + data
      ensures transcript == if ok then old(transcript) + data else old(transcript)
      ensures calm && !old(cancelled) ==> ok
      ensures (old(cancelled) ==> cancelled) && (calm && !old(cancelled) ==> !cancelled)
      ensures old(cancelled) && data != [] ==> !ok && sent == old(sent)
    {
      ok := Write(data);
      if ok {
        transcript := transcript + data;
      }
    }

    /** Some of what the file holds from `at` on; nothing exactly at its end. */
    method ReadChunk(disk: seq<byte>, at: nat, most: nat) returns (chunk: seq<byte>)
      requires most > 0 && (steady ==> at <= |disk|)
      ensures |chunk| <= most
      ensures steady ==> chunk <= disk[at..] && (chunk == [] <==> at == |disk|)
    {
      var found: seq<byte>, count: int := *, *;
      if steady {
        var left := if most < |disk| - at then most else |disk| - at;
        chunk := disk[at..at + if 1 <= count <= left then count else left];
      } else {
        chunk := if |found| <= most then found else found[..most];
      }
    }

    /** The file's bytes, chunk by chunk, straight to the stream.  `disk` is what the file held
        when the transfer began. */
    method SendPayload(size: nat, disk: seq<byte>) returns (ok: bool, payload: seq<byte>)
      modifies this`sent, this`sentBytes, this`cancelled
      ensures ok ==> |payload| == size && sent == old(sent) + payload && sentBytes == old(sentBytes) + size
      ensures old(sent) <= sent && |sent| <= |old(sent)| + size
      ensures old(sentBytes) <= sentBytes <= old(sentBytes) + size
      ensures steady ==> sent <= old(sent) + disk && (ok ==> payload == disk)
      ensures calm && steady && !old(cancelled) ==> (ok <==> |disk| == size)
      ensures (old(cancelled) ==> cancelled) && (calm && !old(cancelled) ==> !cancelled)
      ensures old(cancelled) && size > 0 ==> !ok && sent == old(sent)
    {
      payload := [];
      var remaining := size;
      while remaining > 0
        invariant 0 <= remaining && |payload| + remaining == size
        invariant sent == old(sent) + payload && sentBytes == old(sentBytes) + |payload|
        invariant steady ==> payload <= disk
        invariant (old(cancelled) ==> cancelled && remaining == size) && (calm && !old(cancelled) ==> !cancelled)
      {
        var stop := IsCancelled();
        if stop {
          return false, payload;
        }
        var chunk := ReadChunk(disk, |payload|, remaining);
        if chunk == [] {
          return false, payload;
        }
        ok := Write(chunk);
        if !ok {
          return false, payload;
        }
        payload := payload + chunk;
        sentBytes := sentBytes + |chunk|;
        remaining := remaining - |chunk|;
      }
      var kept: bool, fails: bool := *, *;
      ok := (if steady then |disk| == size else kept) && (calm || !fails);
    }

    /** One file: its bytes, then their digest and authenticator.  `planned` is what the stream
        has or would have got, had the file not ended early. */
    method SendFile(e: P2PEntry, disk: seq<byte>) returns (ok: bool, payload: seq<byte>, ghost planned: seq<byte>)
      modifies this
      ensures ok ==>
        planned == payload && transcript == old(transcript) + crypto.hash(payload) + FileTag(crypto, key, e, payload)
      ensures |planned| == e.size
        && sent <= old(sent) + planned + crypto.hash(planned) + FileTag(crypto, key, e, planned)
      ensures ok ==> sent == old(sent) + planned + crypto.hash(planned) + FileTag(crypto, key, e, planned)
      ensures ok ==> sentBytes == old(sentBytes) + e.size && sentFiles == old(sentFiles) + 1
      ensures old(sentBytes) <= sentBytes <= old(sentBytes) + e.size
        && old(sentFiles) <= sentFiles <= old(sentFiles) + 1
      ensures steady && ok ==> payload == disk
      ensures calm && steady && !old(cancelled) ==> (ok <==> |disk| == e.size)
      ensures (old(cancelled) ==> cancelled) && (calm && !old(cancelled) ==> !cancelled)
    {
      hide FileTag;
      ghost var start := sent;
      ok, payload := SendPayload(e.size, disk);
      if !ok {
        planned := sent[|start|..] + Zeros(e.size - (|sent| - |start|));
        assert sent <= start + planned;
        PrefixExtends(sent, start + planned, crypto.hash(planned));
        PrefixExtends(sent, start + planned + crypto.hash(planned), FileTag(crypto, key, e, planned));
        return;
      }
      planned := payload;
      ok := WriteAuthenticated(crypto.hash(payload));
      if !ok {
        PrefixExtends(sent, start + planned + crypto.hash(planned), FileTag(crypto, key, e, planned));
        return;
      }
      ok := WriteAuthenticated(FileTag(crypto, key, e, payload));
      if ok {
        sentFiles := sentFiles + 1;
      }
    }

    method SendEntry(index: nat, e: P2PEntry, disk: seq<byte>) returns (ok: bool, payload: seq<byte>)
      modifies this
      ensures ok ==> Sendable(e) && |payload| == (if e.isDirectory then 0 else e.size)
      ensures ok ==> sent == old(sent) + FrameBytes(SentFrame(crypto, contexts, key, index, e, payload))
      ensures ok ==>
        transcript == old(transcript) + FrameTranscript(SentFrame(crypto, contexts, key, index, e, payload))
      ensures ok ==>
        sentBytes == old(sentBytes) + |payload| && sentFiles == old(sentFiles) + if e.isDirectory then 0 else 1
      ensures old(sentBytes) <= sentBytes <= old(sentBytes) + if e.isDirectory then 0 else e.size
      ensures old(sentFiles) <= sentFiles <= old(sentFiles) + if e.isDirectory then 0 else 1
      ensures !ok && Sized(crypto) ==> WithinFrame(old(sent), sent)
      ensures steady && ok && !e.isDirectory ==> payload == disk
      ensures calm && steady && !old(cancelled) ==> (ok <==> Sendable(e) && AsListed(e, disk))
      ensures (old(cancelled) ==> cancelled) && (calm && !old(cancelled) ==> !cancelled)
      ensures old(cancelled) ==> !ok && sent == old(sent)
    {
      payload := [];
      ghost var sent0, transcript0 := sent, transcript;
      if !Sendable(e) {
        NothingIsWithin(sent0);
        return false, payload;
      }
      hide SentFrame, FrameBytes, FrameTranscript, EntryControl, EntryTag, FileTag, ToBigEndian, Sized, WithinFrame,
        Sendable, WellFormed;
      ghost var planned := Zeros(e.size);
      ControlIsNotEmpty(e);
      ok := WriteAuthenticated(EntryControl(e));
      if !ok {
        SentFramePieces(crypto, contexts, key, index, e, planned, sent0, sent);
        WithinSentFrame(crypto, contexts, key, index, e, planned, sent0, sent);
        return;
      }
      ok := WriteAuthenticated(EntryTag(crypto, contexts, key, index, e));
      if !ok {
        SentFramePieces(crypto, contexts, key, index, e, planned, sent0, sent);
        WithinSentFrame(crypto, contexts, key, index, e, planned, sent0, sent);
        return;
      }
      if e.isDirectory {
        SentFrameParts(crypto, contexts, key, index, e, payload, sent0);
        SentFrameParts(crypto, contexts, key, index, e, payload, transcript0);
        return;
      }
      ok, payload, planned := SendFile(e, disk);
      SentFrameParts(crypto, contexts, key, index, e, planned, sent0);
      SentFrameParts(crypto, contexts, key, index, e, planned, transcript0);
      if !ok {
        WithinSentFrame(crypto, contexts, key, index, e, planned, sent0, sent);
      }
    }

    /** The loop over the entries. */
    method SendEntries(entries: seq<P2PEntry>, disks: seq<seq<byte>>) returns (ok: bool, ghost payloads: seq<seq<byte>>)
      requires |disks| == |entries| < 0x1_0000_0000
      requires sentBytes == 0 && sentFiles == 0
      modifies this
      ensures ok ==> PayloadsFit(entries, payloads)
      ensures ok ==> sent == old(sent) + AllBytes(SentFrames(crypto, contexts, key, entries, payloads))
      ensures ok ==>
        transcript == old(transcript) + AllTranscripts(SentFrames(crypto, contexts, key, entries, payloads))
      ensures ok ==> sentBytes == FileBytes(entries) && sentFiles == |FilesOf(entries)|
      ensures sentBytes <= FileBytes(entries) && sentFiles <= |FilesOf(entries)|
      ensures !ok && Sized(crypto) && old(sent) == Head(crypto.mac(key, MAGIC), |entries|) ==> DecodeRequest(sent).None?
      ensures steady && ok ==> forall i :: 0 <= i < |entries| && !entries[i].isDirectory ==> payloads[i] == disks[i]
      ensures calm && steady && !old(cancelled) ==>
        (ok <==> forall i :: 0 <= i < |entries| ==> Sendable(entries[i]) && AsListed(entries[i], disks[i]))
      ensures (old(cancelled) ==> cancelled) && (calm && !old(cancelled) ==> !cancelled)
      ensures old(cancelled) && entries != [] ==> !ok && sent == old(sent)
    {
      hide SentFrame, SentFrames, FrameBytes, FrameTranscript, AllBytes, AllTranscripts, PayloadsFit, Sendable, Head,
        ToBigEndian, FileBytes, FilesOf, Sized, DecodeRequest, WithinFrame, AsListed;
      payloads, ok := [], true;
      NothingSent(crypto, contexts, key);
      for i := 0 to |entries|
        invariant ok && PayloadsFit(entries[..i], payloads) && |payloads| == i
        invariant sent == old(sent) + AllBytes(SentFrames(crypto, contexts, key, entries[..i], payloads))
        invariant transcript == old(transcript)
          + AllTranscripts(SentFrames(crypto, contexts, key, entries[..i], payloads))
        invariant sentBytes == FileBytes(entries[..i]) && sentFiles == |FilesOf(entries[..i])|
        invariant steady ==> forall j :: 0 <= j < i && !entries[j].isDirectory ==> payloads[j] == disks[j]
        invariant (old(cancelled) ==> cancelled && i == 0) && (calm && !old(cancelled) ==> !cancelled)
        invariant calm && steady && !old(cancelled) ==> forall j :: 0 <= j < i ==>
          Sendable(entries[j]) && AsListed(entries[j], disks[j])
      {
        var payload;
        ghost var before := sent;
        ok, payload := SendEntry(i, entries[i], disks[i]);
        FilesAppend(entries, i);
        PrefixCarriesLess(entries, i + 1);
        if !ok {
          if old(sent) == Head(crypto.mac(key, MAGIC), |entries|) {
            BrokeOffInFrame(crypto, contexts, key, entries, payloads, before, sent);
          }
          return;
        }
        OneMoreSent(crypto, contexts, key, entries, payloads, payload, old(sent));
        OneMoreSent(crypto, contexts, key, entries, payloads, payload, old(transcript));
        PayloadsFitAppend(entries, payloads, payload);
        payloads := payloads + [payload];
      }
      assert entries[..|entries|] == entries;
    }

    /** The whole request.  On success the stream carries exactly the layout's bytes for the
        entries and the payloads that were read; what broke off is no request. */
    method SendRequest(entries: seq<P2PEntry>, disks: seq<seq<byte>>) returns (ok: bool, ghost payloads: seq<seq<byte>>)
      requires |disks| == |entries|
      requires sent == [] && transcript == [] && sentBytes == 0 && sentFiles == 0
      modifies this
      ensures ok ==> PayloadsFit(entries, payloads) && |entries| < 0x1_0000_0000
      ensures ok ==> sent == RequestBytes(SentRequest(crypto, contexts, key, entries, payloads))
      ensures ok ==> sentBytes == FileBytes(entries) && sentFiles == |FilesOf(entries)|
      ensures sentBytes <= FileBytes(entries) && sentFiles <= |FilesOf(entries)|
      ensures !ok && Sized(crypto) ==> DecodeRequest(sent).None?
      ensures steady && ok ==> forall i :: 0 <= i < |entries| && !entries[i].isDirectory ==> payloads[i] == disks[i]
      ensures calm && steady && !old(cancelled) ==> (ok <==>
        |entries| < 0x1_0000_0000 && forall i :: 0 <= i < |entries| ==>
          Sendable(entries[i]) && AsListed(entries[i], disks[i]))
      ensures old(cancelled) ==> !ok && sent == []
    {
      hide SentFrames, AllBytes, AllTranscripts, PayloadsFit, Sendable, ToBigEndian, FileBytes, FilesOf, DecodeRequest,
        AsListed, SentRequest, RequestBytes, Transcript;
      payloads := [];
      ghost var opening, count := crypto.mac(key, MAGIC), |entries|;
      ok := Write(MAGIC);
      if ok { ok := Write(crypto.mac(key, MAGIC)); }
      if !ok || |entries| >= 0x1_0000_0000 {
        BrokeOffEarly(crypto, opening, 0, sent);
        return false, payloads;
      }
      ok := WriteAuthenticated(ToBigEndian(|entries|, 4));
      if !ok {
        BrokeOffEarly(crypto, opening, count, sent);
        return;
      }
      assert sent == Head(opening, count) && transcript == ToBigEndian(count, 4);
      ok, payloads := SendEntries(entries, disks);
      if ok {
        SentRequestParts(crypto, contexts, key, entries, payloads);
        ok := Write(crypto.mac(key, contexts.request + transcript));
        if !ok {
          BrokeOffAtTheEnd(crypto, contexts, key, entries, payloads, sent);
        }
      }
    }
  }

  lemma BrokeOff(c: Crypto, opening: seq<byte>, count: nat, fs: seq<Frame>, sent: seq<byte>)
    requires Sized(c) ==> |opening| == 32 && AllWellFormed(fs)
    requires count < 0x1_0000_0000 && |fs| <= count
    requires sent <= Head(opening, count) + AllBytes(fs)
    ensures Sized(c) ==> DecodeRequest(sent).None?
  {
    if Sized(c) {
      WithinIsUnfinished(opening, count, fs, sent);
      UnfinishedIsNoRequest(sent);
    }
  }

  lemma BrokeOffEarly(c: Crypto, opening: seq<byte>, count: nat, sent: seq<byte>)
    requires Sized(c) ==> |opening| == 32
    requires count < 0x1_0000_0000
    requires sent <= MAGIC + opening || sent <= Head(opening, count)
    ensures Sized(c) ==> DecodeRequest(sent).None?
  {
    if sent <= MAGIC + opening {
      PrefixExtends(sent, MAGIC + opening, ToBigEndian(count, 4));
    }
    var none := AllBytes([]);
    assert Head(opening, count) + none == Head(opening, count);
    BrokeOff(c, opening, count, [], sent);
  }

  lemma BrokeOffAfter(c: Crypto, opening: seq<byte>, count: nat, fs: seq<Frame>, sent: seq<byte>)
    requires Sized(c) ==>
      |opening| == 32 && AllWellFormed(fs) && WithinFrame(Head(opening, count) + AllBytes(fs), sent)
    requires |fs| < count < 0x1_0000_0000
    ensures Sized(c) ==> DecodeRequest(sent).None?
  {
    if Sized(c) {
      var f :| WellFormed(f) && sent <= Head(opening, count) + AllBytes(fs) + FrameBytes(f);
      hide *;
      OneMoreFrame(Head(opening, count), fs, f);
      AppendedWellFormed(fs, f);
      BrokeOff(c, opening, count, fs + [f], sent);
    }
  }

  lemma AppendedWellFormed(fs: seq<Frame>, f: Frame)
    requires AllWellFormed(fs) && WellFormed(f)
    ensures AllWellFormed(fs + [f])
  {
  }

  lemma OneMoreFrame(before: seq<byte>, fs: seq<Frame>, f: Frame)
    ensures before + AllBytes(fs) + FrameBytes(f) == before + AllBytes(fs + [f])
    ensures before + AllTranscripts(fs) + FrameTranscript(f) == before + AllTranscripts(fs + [f])
  {
    AllBytesAppend(fs, f);
    hide AllBytes, FrameBytes, AllTranscripts, FrameTranscript;
  }

  lemma SentRequestParts(c: Crypto, ctx: Contexts, key: seq<byte>, entries: seq<P2PEntry>, payloads: seq<seq<byte>>)
    requires PayloadsFit(entries, payloads)
    ensures var fs := SentFrames(c, ctx, key, entries, payloads);
      RequestBytes(SentRequest(c, ctx, key, entries, payloads))
      == Head(c.mac(key, MAGIC), |entries|) + AllBytes(fs)
         + c.mac(key, ctx.request + (ToBigEndian(|entries|, 4) + AllTranscripts(fs)))
  {
  }

  lemma BrokeOffInFrame(c: Crypto, ctx: Contexts, key: seq<byte>, entries: seq<P2PEntry>, payloads: seq<seq<byte>>,
                        before: seq<byte>, sent: seq<byte>)
    requires |payloads| < |entries| < 0x1_0000_0000 && PayloadsFit(entries[..|payloads|], payloads)
    requires before == Head(c.mac(key, MAGIC), |entries|)
      + AllBytes(SentFrames(c, ctx, key, entries[..|payloads|], payloads))
    requires Sized(c) ==> WithinFrame(before, sent)
    ensures Sized(c) ==> DecodeRequest(sent).None?
  {
    hide SentFrames, DecodeRequest, AllBytes, Head, AllWellFormed, WithinFrame, PayloadsFit;
    if Sized(c) {
      SentFramesAreWellFormed(c, ctx, key, entries[..|payloads|], payloads);
    }
    BrokeOffAfter(c, c.mac(key, MAGIC), |entries|, SentFrames(c, ctx, key, entries[..|payloads|], payloads), sent);
  }

  lemma BrokeOffAtTheEnd(c: Crypto, ctx: Contexts, key: seq<byte>, entries: seq<P2PEntry>, payloads: seq<seq<byte>>,
                         sent: seq<byte>)
    requires PayloadsFit(entries, payloads) && |entries| < 0x1_0000_0000
    requires sent < RequestBytes(SentRequest(c, ctx, key, entries, payloads))
    ensures Sized(c) ==> DecodeRequest(sent).None?
  {
    if Sized(c) {
      SentFramesAreWellFormed(c, ctx, key, entries, payloads);
      assert WellFormedRequest(SentRequest(c, ctx, key, entries, payloads));
      UnfinishedIsNoRequest(sent);
    }
  }

  lemma NothingSent(c: Crypto, ctx: Contexts, key: seq<byte>)
    ensures PayloadsFit([], []) && FileBytes([]) == 0 && FilesOf([]) == []
    ensures AllBytes(SentFrames(c, ctx, key, [], [])) == [] && AllTranscripts(SentFrames(c, ctx, key, [], [])) == []
  {
  }

  /** One turn of the sender's loop, seen from the layout. */
  lemma OneMoreSent(c: Crypto, ctx: Contexts, key: seq<byte>, entries: seq<P2PEntry>, payloads: seq<seq<byte>>,
                    payload: seq<byte>, before: seq<byte>)
    requires |payloads| < |entries|
    ensures before + AllBytes(SentFrames(c, ctx, key, entries[..|payloads| + 1], payloads + [payload]))
      == before + AllBytes(SentFrames(c, ctx, key, entries[..|payloads|], payloads))
         + FrameBytes(SentFrame(c, ctx, key, |payloads|, entries[|payloads|], payload))
    ensures before + AllTranscripts(SentFrames(c, ctx, key, entries[..|payloads| + 1], payloads + [payload]))
      == before + AllTranscripts(SentFrames(c, ctx, key, entries[..|payloads|], payloads))
         + FrameTranscript(SentFrame(c, ctx, key, |payloads|, entries[|payloads|], payload))
  {
    var i := |payloads|;
    var fs, f := SentFrames(c, ctx, key, entries[..i], payloads), SentFrame(c, ctx, key, i, entries[i], payload);
    SentFramesAppend(c, ctx, key, entries, payloads, payload);
    hide *;
    OneMoreFrame(before, fs, f);
  }

  lemma {:induction false} PrefixCarriesLess(entries: seq<P2PEntry>, i: nat)
    requires i <= |entries|
    ensures FileBytes(entries[..i]) <= FileBytes(entries) && |FilesOf(entries[..i])| <= |FilesOf(entries)|
    decreases |entries| - i
  {
    if i == |entries| {
      assert entries[..i] == entries;
    } else {
      FilesAppend(entries, i);
      PrefixCarriesLess(entries, i + 1);
    }
  }

  lemma FilesAppend(entries: seq<P2PEntry>, i: nat)
    requires i < |entries|
    ensures FileBytes(entries[..i + 1])
      == FileBytes(entries[..i]) + if entries[i].isDirectory then 0 else entries[i].size
    ensures |FilesOf(entries[..i + 1])| == |FilesOf(entries[..i])| + if entries[i].isDirectory then 0 else 1
  {
    assert entries[..i + 1][..i] == entries[..i];
  }

  lemma SentFramesAppend(c: Crypto, ctx: Contexts, key: seq<byte>, entries: seq<P2PEntry>, payloads: seq<seq<byte>>,
                         payload: seq<byte>)
    requires |payloads| < |entries|
    ensures SentFrames(c, ctx, key, entries[..|payloads| + 1], payloads + [payload])
      == SentFrames(c, ctx, key, entries[..|payloads|], payloads)
        + [SentFrame(c, ctx, key, |payloads|, entries[|payloads|], payload)]
  {
    hide SentFrame;
    var i := |payloads|;
    assert entries[..i + 1][..i] == entries[..i] && (payloads + [payload])[..i] == payloads;
  }

  lemma PayloadsFitAppend(entries: seq<P2PEntry>, payloads: seq<seq<byte>>, payload: seq<byte>)
    requires |payloads| < |entries| && PayloadsFit(entries[..|payloads|], payloads)
    requires Sendable(entries[|payloads|])
    requires |payload| == if entries[|payloads|].isDirectory then 0 else entries[|payloads|].size
    ensures PayloadsFit(entries[..|payloads| + 1], payloads + [payload])
  {
    var es := entries[..|payloads|];
    forall i | 0 <= i < |payloads| + 1
      ensures Sendable(entries[i])
      ensures |(payloads + [payload])[i]| == if entries[i].isDirectory then 0 else entries[i].size
    {
      if i < |payloads| {
        assert es[i] == entries[i] && Sendable(es[i]);
      }
    }
  }

  /** Together: what the sender wrote is one well-formed request, and a receiver that reads the
      layout gets the entries back in order. */
  lemma SentRequestIsDecodable(c: Crypto, ctx: Contexts, key: seq<byte>, entries: seq<P2PEntry>,
                               payloads: seq<seq<byte>>, rest: seq<byte>)
    requires Sized(c) && PayloadsFit(entries, payloads) && |entries| < 0x1_0000_0000
    ensures WellFormedRequest(SentRequest(c, ctx, key, entries, payloads))
    ensures DecodeRequest(RequestBytes(SentRequest(c, ctx, key, entries, payloads)) + rest)
      == Some((SentRequest(c, ctx, key, entries, payloads), rest))
  {
    SentFramesAreWellFormed(c, ctx, key, entries, payloads);
    DecodeInvertsEncode(SentRequest(c, ctx, key, entries, payloads), rest);
  }

  lemma {:induction false} SentFrameAt(c: Crypto, ctx: Contexts, key: seq<byte>, entries: seq<P2PEntry>,
                                       payloads: seq<seq<byte>>, i: nat)
    requires |payloads| == |entries| && i < |entries|
    ensures SentFrames(c, ctx, key, entries, payloads)[i] == SentFrame(c, ctx, key, i, entries[i], payloads[i])
  {
    if i < |entries| - 1 {
      SentFrameAt(c, ctx, key, entries[..|entries| - 1], payloads[..|entries| - 1], i);
    }
  }

  /** Two senders with equal transcripts were given the same entries in the same order. */
  lemma TranscriptFixesTheEntries(c: Crypto, ctx: Contexts, key: seq<byte>, key': seq<byte>, entries: seq<P2PEntry>,
                                  payloads: seq<seq<byte>>, entries': seq<P2PEntry>, payloads': seq<seq<byte>>, i: nat)
    requires Sized(c) && PayloadsFit(entries, payloads) && PayloadsFit(entries', payloads')
    requires |entries| < 0x1_0000_0000 && |entries'| < 0x1_0000_0000
    requires Transcript(SentFrames(c, ctx, key, entries, payloads))
      == Transcript(SentFrames(c, ctx, key', entries', payloads'))
    ensures |entries| == |entries'|
    ensures i < |entries| ==> entries[i].path == entries'[i].path && entries[i].isDirectory == entries'[i].isDirectory
    ensures i < |entries| && !entries[i].isDirectory ==>
      entries[i].size == entries'[i].size && c.hash(payloads[i]) == c.hash(payloads'[i])
  {
    var fs, gs := SentFrames(c, ctx, key, entries, payloads), SentFrames(c, ctx, key', entries', payloads');
    SentFramesAreWellFormed(c, ctx, key, entries, payloads);
    SentFramesAreWellFormed(c, ctx, key', entries', payloads');
    TranscriptFixesTheFrames(fs, gs);
    if i < |entries| {
      BaresAt(fs, i);
      BaresAt(gs, i);
      SentFrameAt(c, ctx, key, entries, payloads, i);
      SentFrameAt(c, ctx, key', entries', payloads', i);
    }
  }

  /** The largest names and files that can be sent. */
  lemma SendableIsBounded(e: P2PEntry)
    ensures Sendable(e) <==> |e.path| <= 65_536 && (e.isDirectory || e.size <= 18_446_744_073_709_551_615)
  {
  }

  /** Such a name is read back from the stream, a longer one is not read. */
  lemma LongestName(path: seq<byte>, rest: seq<byte>)
    requires |path| < 0x1_0000_0000
    ensures DecodeControl(ControlFrame(path, None) + Zeros(32) + rest).Some? <==> |path| <= 65_536
  {
    if |path| <= 65_536 {
      DecodeControlOfEncoded(path, None, Zeros(32), rest);
    } else {
      PowersOf256();
      BigEndianOfBytes(|path|, 4);
      hide ToBigEndian, BigEndian, Pow256;
      ControlPieces(0, ToBigEndian(|path|, 4), path, Zeros(32) + rest);
      assert ControlFrame(path, None) + Zeros(32) + rest == [0] + ToBigEndian(|path|, 4) + path + (Zeros(32) + rest);
    }
  }

  // ---------------------------------------------------------------- what the tags cover

  /** The mac keeps these two inputs apart. */
  ghost predicate KeepsApart(c: Crypto, key: seq<byte>, a: seq<byte>, b: seq<byte>) {
    a != b ==> c.mac(key, a) != c.mac(key, b)
  }

  /** What the tag of one entry covers, written out. */
  function EntryCovered(ctx: Contexts, index: nat, e: P2PEntry): seq<byte> {
    ctx.entry + ToBigEndian(index, 4)
    + if e.isDirectory then [0] + ToBigEndian(|e.path|, 4) + e.path
      else [1] + ToBigEndian(|e.path|, 4) + e.path + ToBigEndian(e.size, 8)
  }

  /** Equal tags of two entries mean the same place in the request, kind, path and size. */
  lemma EntryTagFixesTheEntry(c: Crypto, ctx: Contexts, key: seq<byte>, i: nat, e: P2PEntry, j: nat, f: P2PEntry)
    requires Sendable(e) && Sendable(f) && i < 0x1_0000_0000 && j < 0x1_0000_0000
    requires KeepsApart(c, key, EntryCovered(ctx, i, e), EntryCovered(ctx, j, f))
    requires EntryTag(c, ctx, key, i, e) == EntryTag(c, ctx, key, j, f)
    ensures i == j && e.isDirectory == f.isDirectory && e.path == f.path && (e.isDirectory || e.size == f.size)
  {
    PowersOf256();
    BigEndianOfBytes(i, 4);
    BigEndianOfBytes(j, 4);
    CoveredControl(ctx, i, e);
    CoveredControl(ctx, j, f);
    hide ToBigEndian, BigEndian, Pow256, DecodeControl, EntryControl, EntryCovered;
    SameMiddle(ctx.entry, ToBigEndian(i, 4), EntryControl(e), ToBigEndian(j, 4), EntryControl(f));
    ControlFixesTheEntry(e, f);
  }

  lemma CoveredControl(ctx: Contexts, index: nat, e: P2PEntry)
    ensures EntryCovered(ctx, index, e) == ctx.entry + ToBigEndian(index, 4) + EntryControl(e)
  {
    hide ToBigEndian;
  }

  lemma SameMiddle(x: seq<byte>, a: seq<byte>, b: seq<byte>, c: seq<byte>, d: seq<byte>)
    requires |a| == |c|
    ensures x + a + b == x + c + d ==> a == c && b == d
  {
    var n := |x|;
    assert (x + a + b)[n..n + |a|] == a && (x + a + b)[n + |a|..] == b;
    assert (x + c + d)[n..n + |a|] == c && (x + c + d)[n + |a|..] == d;
  }

  lemma ControlFixesTheEntry(e: P2PEntry, f: P2PEntry)
    requires Sendable(e) && Sendable(f) && EntryControl(e) == EntryControl(f)
    ensures e.isDirectory == f.isDirectory && e.path == f.path && (e.isDirectory || e.size == f.size)
  {
    var tag := Zeros(32);
    DecodeControlOfEncoded(e.path, if e.isDirectory then None else Some(e.size), tag, []);
    DecodeControlOfEncoded(f.path, if f.isDirectory then None else Some(f.size), tag, []);
    hide DecodeControl, ControlFrame;
  }

  /** What the authenticator of one file covers, written out. */
  function FileCovered(e: P2PEntry, payload: seq<byte>): seq<byte> {
    e.path + [0] + ToBigEndian(e.size, 8) + payload
  }

  /** Equal authenticators of files with names of one length mean the same name, size and bytes. */
  lemma FileTagFixesTheFile(c: Crypto, key: seq<byte>, e: P2PEntry, payload: seq<byte>, f: P2PEntry,
                            payload': seq<byte>)
    requires Sendable(e) && Sendable(f) && !e.isDirectory && !f.isDirectory && |e.path| == |f.path|
    requires KeepsApart(c, key, FileCovered(e, payload), FileCovered(f, payload'))
    requires FileTag(c, key, e, payload) == FileTag(c, key, f, payload')
    ensures e.path == f.path && e.size == f.size && payload == payload'
  {
    var a, b, n := FileCovered(e, payload), FileCovered(f, payload'), |e.path|;
    PowersOf256();
    BigEndianOfBytes(e.size, 8);
    BigEndianOfBytes(f.size, 8);
    hide ToBigEndian, BigEndian, Pow256;
    assert a == b;
    assert a[..n] == e.path && b[..n] == f.path;
    assert a[n + 1..n + 9] == ToBigEndian(e.size, 8) && b[n + 1..n + 9] == ToBigEndian(f.size, 8);
    assert a[n + 9..] == payload && b[n + 9..] == payload';
  }

  /** Equal closing tags mean equal transcripts. */
  lemma ClosingTagFixesTheTranscript(c: Crypto, ctx: Contexts, key: seq<byte>, entries: seq<P2PEntry>,
                                     payloads: seq<seq<byte>>, entries': seq<P2PEntry>, payloads': seq<seq<byte>>)
    requires |payloads| == |entries| && |payloads'| == |entries'|
    requires var t, t' := Transcript(SentFrames(c, ctx, key, entries, payloads)),
                          Transcript(SentFrames(c, ctx, key, entries', payloads'));
      KeepsApart(c, key, ctx.request + t, ctx.request + t')
    requires SentRequest(c, ctx, key, entries, payloads).closing
      == SentRequest(c, ctx, key, entries', payloads').closing
    ensures Transcript(SentFrames(c, ctx, key, entries, payloads))
      == Transcript(SentFrames(c, ctx, key, entries', payloads'))
  {
    hide Transcript, SentFrames;
    var t, t' := Transcript(SentFrames(c, ctx, key, entries, payloads)),
                 Transcript(SentFrames(c, ctx, key, entries', payloads'));
    assert (ctx.request + t)[|ctx.request|..] == t && (ctx.request + t')[|ctx.request|..] == t';
  }

  /** A request of one directory and one file, byte for byte. */
  lemma OneDirectoryAndOneFile(c: Crypto, ctx: Contexts, key: seq<byte>, d: P2PEntry, f: P2PEntry, payload: seq<byte>)
    requires d.isDirectory && !f.isDirectory
    ensures var magic := [0x4F, 0x41, 0x44, 0x42, 0x50, 0x32, 0x50, 0x32];
      var first := [0] + ToBigEndian(|d.path|, 4) + d.path;
      var second := [1] + ToBigEndian(|f.path|, 4) + f.path + ToBigEndian(f.size, 8);
      var tag1 := c.mac(key, ctx.entry + [0, 0, 0, 0] + first);
      var tag2 := c.mac(key, ctx.entry + [0, 0, 0, 1] + second);
      var digest := c.hash(payload);
      var file := c.mac(key, f.path + [0] + ToBigEndian(f.size, 8) + payload);
      var closing := c.mac(key, ctx.request + ([0, 0, 0, 2] + (first + tag1 + (second + tag2 + digest + file))));
      RequestBytes(SentRequest(c, ctx, key, [d, f], [[], payload]))
      == magic + c.mac(key, magic) + [0, 0, 0, 2] + (first + tag1 + (second + tag2 + payload + digest + file)) + closing
  {
    WrittenEntry(c, ctx, key, d, f);
    TwoSentFrames(c, ctx, key, d, f, payload);
    FourBytes();
    hide ToBigEndian, EntryTag, EntryControl, AllBytes, AllTranscripts, SentFrames;
  }

  lemma WrittenEntry(c: Crypto, ctx: Contexts, key: seq<byte>, d: P2PEntry, f: P2PEntry)
    requires d.isDirectory && !f.isDirectory
    ensures EntryControl(d) == [0] + ToBigEndian(|d.path|, 4) + d.path
    ensures EntryControl(f) == [1] + ToBigEndian(|f.path|, 4) + f.path + ToBigEndian(f.size, 8)
    ensures EntryTag(c, ctx, key, 0, d) == c.mac(key, ctx.entry + [0, 0, 0, 0] + EntryControl(d))
    ensures EntryTag(c, ctx, key, 1, f) == c.mac(key, ctx.entry + [0, 0, 0, 1] + EntryControl(f))
  {
    FourBytes();
    hide ToBigEndian;
  }

  lemma TwoSentFrames(c: Crypto, ctx: Contexts, key: seq<byte>, d: P2PEntry, f: P2PEntry, payload: seq<byte>)
    requires d.isDirectory && !f.isDirectory
    ensures var all := SentFrames(c, ctx, key, [d, f], [[], payload]);
      var tag1, tag2 := EntryTag(c, ctx, key, 0, d), EntryTag(c, ctx, key, 1, f);
      var digest, file := c.hash(payload), FileTag(c, key, f, payload);
      && AllBytes(all) == EntryControl(d) + tag1 + (EntryControl(f) + tag2 + payload + digest + file)
      && AllTranscripts(all) == EntryControl(d) + tag1 + (EntryControl(f) + tag2 + digest + file)
  {
    var a, b := SentFrame(c, ctx, key, 0, d, []), SentFrame(c, ctx, key, 1, f, payload);
    TwoAreSent(c, ctx, key, d, f, payload);
    TwoFrames(a, b);
    SentFrameAlone(c, ctx, key, 0, d, []);
    SentFrameAlone(c, ctx, key, 1, f, payload);
    hide *;
  }

  lemma SentFrameAlone(c: Crypto, ctx: Contexts, key: seq<byte>, index: nat, e: P2PEntry, payload: seq<byte>)
    ensures var start := EntryControl(e) + EntryTag(c, ctx, key, index, e);
      var f := SentFrame(c, ctx, key, index, e, payload);
      && FrameBytes(f)
         == (if e.isDirectory then start else start + payload + c.hash(payload) + FileTag(c, key, e, payload))
      && FrameTranscript(f) == if e.isDirectory then start else start + c.hash(payload) + FileTag(c, key, e, payload)
  {
    hide ControlFrame, EntryTag, FileTag;
  }

  lemma TwoAreSent(c: Crypto, ctx: Contexts, key: seq<byte>, d: P2PEntry, f: P2PEntry, payload: seq<byte>)
    ensures SentFrames(c, ctx, key, [d, f], [[], payload])
      == [SentFrame(c, ctx, key, 0, d, []), SentFrame(c, ctx, key, 1, f, payload)]
  {
    hide SentFrame;
    var none: seq<byte> := [];
    var entries := [d, f];
    SentFramesAppend(c, ctx, key, entries, [none], payload);
    SentFramesAppend(c, ctx, key, entries, [], none);
    assert entries[..2] == entries && [none] + [payload] == [none, payload];
    assert [] + [none] == [none];
  }

  lemma FourBytes()
    ensures ToBigEndian(0, 4) == [0, 0, 0, 0] && ToBigEndian(1, 4) == [0, 0, 0, 1] && ToBigEndian(2, 4) == [0, 0, 0, 2]
  {
    SmallBigEndian(0);
    SmallBigEndian(1);
    SmallBigEndian(2);
  }

  lemma SmallBigEndian(n: nat)
    requires n < 256
    ensures ToBigEndian(n, 4) == [0, 0, 0, (n % 256) as byte]
  {
    assert ToBigEndian(0, 1) == [0];
    assert ToBigEndian(0, 2) == [0, 0];
    assert ToBigEndian(0, 3) == [0, 0, 0];
  }

  lemma TwoFrames(a: Frame, b: Frame)
    ensures AllBytes([a, b]) == FrameBytes(a) + FrameBytes(b)
    ensures AllTranscripts([a, b]) == FrameTranscript(a) + FrameTranscript(b)
  {
    AllBytesAppend([], a);
    AllBytesAppend([a], b);
    assert [] + [a] == [a] && [a] + [b] == [a, b];
    hide FrameBytes, FrameTranscript;
  }
}
