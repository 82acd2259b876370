/** The writer that streams the local file into adb
    (`openadb/core/adb_transfer_strategy.py`, `input_writer`): short reads, short writes,
    cancellation, and a source that other programs may change while it is read. */
module SourceStream {
  import opened Bytes

  class Upload {
    /** Nobody cancels, and the stream keeps accepting data. */
    const calm: bool
    /** The local file; `version` stands for its fingerprint and grows with every change. */
    var content: seq<byte>
    var version: nat
    /** The user's cancel flag; once set it stays. */
    var cancelled: bool
    /** What the stream has accepted so far. */
    var sent: seq<byte>

    constructor (content: seq<byte>, calm: bool)
      ensures this.content == content && sent == [] && this.calm == calm && !cancelled
    {
      this.calm := calm;
      this.content, version, sent, cancelled := content, 0, [], false;
    }

    method IsCancelled() returns (yes: bool)
      modifies this`cancelled
      ensures yes == cancelled && (old(cancelled) ==> yes) && (calm && yes ==> old(cancelled))
    {
      var now: bool := *;
      cancelled := cancelled || (now && !calm);
      yes := cancelled;
    }

    method Interfere()
      modifies this`content, this`version
      ensures version >= old(version) && (version == old(version) ==> content == old(content))
    {
      var touched: bool := *;
      var other: seq<byte> := *;
      if touched {
        content, version := other, version + 1;
      }
    }

    /** `read(limit)`: at least one byte unless the end is reached. */
    method Read(position: nat, limit: nat) returns (chunk: seq<byte>)
      requires limit > 0
      modifies this`content, this`version
      ensures version >= old(version) && (version == old(version) ==> content == old(content))
      ensures |chunk| <= limit && (chunk == [] <==> position >= |content|)
      ensures position + |chunk| <= |content| || chunk == []
      ensures chunk != [] ==> chunk == content[position..position + |chunk|]
    {
      Interfere();
      if position >= |content| {
        return [];
      }
      var most := if limit < |content| - position then limit else |content| - position;
      var n: int := *;
      n := if 1 <= n <= most then n else most;
      chunk := content[position..position + n];
    }

    /** `stream.write(pending)`: some bytes are accepted, or none any more. */
    method Write(pending: seq<byte>) returns (written: nat)
      modifies this`sent
      ensures written <= |pending| && sent == old(sent) + pending[..written]
      ensures calm && pending != [] ==> written > 0
    {
      var n: int := *;
      written := if 0 <= n <= |pending| && !(calm && n == 0) then n else |pending|;
      sent := sent + pending[..written];
    }

    /** Writes one chunk piece by piece. */
    method WriteAll(chunk: seq<byte>) returns (raised: bool)
      modifies this`sent, this`cancelled
      ensures old(sent) <= sent <= old(sent) + chunk
      ensures !raised ==> sent == old(sent) + chunk
      ensures calm && !old(cancelled) ==> !raised && !cancelled
      ensures old(cancelled) ==> cancelled && (chunk != [] ==> raised && sent == old(sent))
    {
      var pending := chunk;
      while pending != []
        invariant sent + pending == old(sent) + chunk && old(sent) <= sent
        invariant old(cancelled) ==> cancelled && pending == chunk && sent == old(sent)
        invariant calm && !old(cancelled) ==> !cancelled
        decreases |pending|
      {
        var stop := IsCancelled();
        if stop {
          return true;
        }
        ghost var before := sent;
        var written := Write(pending);
        assert pending == pending[..written] + pending[written..];
        if written == 0 {
          return true;
        }
        pending := pending[written..];
      }
      assert sent + [] == sent;
      raised := false;
    }

    /** The whole writer.  Unless it raises, it reports a changed source exactly when the file
        it opened had not the expected size or was changed before the final fingerprint; and
        without that report the stream holds exactly the file.  `captured` and `initial` are the
        file and its version when it was opened. */
    method InputWriter(expected: nat, bufferSize: nat)
      returns (raised: bool, changed: bool, initial: nat, ghost captured: seq<byte>)
      requires sent == [] && bufferSize > 0
      modifies this
      ensures |sent| <= expected
      ensures calm && !old(cancelled) ==> !raised
      ensures old(cancelled) && |captured| == expected && expected > 0 ==> raised && sent == []
      ensures old(version) <= initial <= version
      ensures initial == old(version) ==> captured == old(content)
      ensures initial == version ==> captured == content
      ensures !raised ==> (changed <==> |captured| != expected || version != initial)
      ensures !raised && version == old(version) ==> (changed <==> |old(content)| != expected)
      ensures !raised && |content| != expected ==> changed
      ensures |captured| != expected ==> !raised && sent == []
      ensures !raised && !changed ==> sent == captured && |captured| == expected && content == captured
    {
      Interfere();
      captured, initial := content, version;
      if |content| != expected {
        return false, true, initial, captured;
      }
      changed := false;
      while |sent| < expected
        invariant |sent| <= expected && version >= initial
        invariant version == initial ==> content == captured && sent <= captured
        invariant (old(cancelled) ==> cancelled && sent == []) && (calm && !old(cancelled) ==> !cancelled)
        invariant old(cancelled) && expected > 0 ==> !changed
        decreases expected - |sent|
      {
        var stop := IsCancelled();
        if stop {
          return true, false, initial, captured;
        }
        var limit := if bufferSize < expected - |sent| then bufferSize else expected - |sent|;
        var chunk := Read(|sent|, limit);
        if chunk == [] {
          changed := true;
          break;
        }
        raised := WriteAll(chunk);
        if raised {
          return true, false, initial, captured;
        }
      }
      if !changed {
        var more := Read(expected, 1);
        changed := more != [];
      }
      Interfere();
      changed := changed || version != initial;
      raised := false;
    }
  }
}
