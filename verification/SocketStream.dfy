/** The blocking socket stream of one transfer (`openadb/core/acbridge_p2p.py`,
    `_CancellableSocketStream` and `_read_exact`). */
module SocketStream {
  import opened Bytes
  import opened Wrappers

  datatype StreamError = Closed | Cancelled | TimedOut | EndOfStream | SocketFailure

  /** `part` is what is left of `whole` after some bytes were taken from its front. */
  ghost predicate SuffixOf(part: seq<byte>, whole: seq<byte>) {
    |part| <= |whole| && part == whole[|whole| - |part|..]
  }

  /** `incoming` is everything the peer will still send before it closes; a receive hands over
      a piece of it of the network's choosing.  `outgoing` is what the socket accepted. */
  class Stream {
    /** Nobody cancels, no call fails, and data flows before the idle time is over. */
    const calm: bool
    /** There is a user who can cancel. */
    const cancellable: bool
    var closed: bool
    /** The user's cancel flag; once set it stays. */
    var cancelled: bool
    var incoming: seq<byte>
    var outgoing: seq<byte>

    constructor (incoming: seq<byte>, calm: bool, cancellable: bool)
      ensures !closed && !cancelled && this.incoming == incoming && outgoing == []
      ensures this.calm == calm && this.cancellable == cancellable
    {
      this.calm, this.cancellable := calm, cancellable;
      closed, cancelled, this.incoming, outgoing := false, false, incoming, [];
    }

    /** A closed stream fails; cancellation and the idle clock may strike at any time. */
    method CheckReady(patience: nat) returns (problem: Option<StreamError>)
      modifies this`cancelled
      ensures cancelled ==> old(cancelled) || (cancellable && !calm)
      ensures old(cancelled) ==> cancelled
      ensures !closed && cancelled ==> problem == Some(Cancelled)
      ensures closed ==> problem == Some(Closed)
      ensures problem.Some? ==> problem.value in {Closed, Cancelled, TimedOut} && (problem.value == Closed ==> closed)
      ensures problem == Some(Cancelled) ==> cancelled
      ensures problem == Some(TimedOut) ==> patience == 0
      ensures patience == 0 && !calm ==> problem.Some?
      ensures calm && !closed && !cancelled ==> problem.None?
    {
      var now: bool := *;
      cancelled := cancelled || (now && cancellable && !calm);
      if closed {
        problem := Some(Closed);
      } else if cancelled {
        problem := Some(Cancelled);
      } else if patience == 0 && !calm {
        problem := Some(TimedOut);
      } else {
        problem := None;
      }
    }

    /** How many 0.25-second waits fit into the idle time. */
    method IdleTime() returns (waits: nat)
    {
      var any: int := *;
      waits := if any < 0 then 0 else any;
    }

    /** Every schedule of short sends and waits delivers the bytes in order: all of them on
        success, a proper prefix on failure. */
    method Write(data: seq<byte>) returns (r: Result<nat, StreamError>)
      modifies this`outgoing, this`cancelled
      ensures r.Ok? ==> r.value == |data| && outgoing == old(outgoing) + data
      ensures r.Err? ==> exists sent :: 0 <= sent < |data| && outgoing == old(outgoing) + data[..sent]
      ensures closed && data != [] ==> r == Err(Closed) && outgoing == old(outgoing)
      ensures calm && !closed && !old(cancelled) ==> r.Ok?
      ensures r == Err(Cancelled) ==> cancelled
      ensures cancelled ==> old(cancelled) || (cancellable && !calm)
      ensures old(cancelled) ==> cancelled
      ensures old(cancelled) && !closed && data != [] ==> r == Err(Cancelled) && outgoing == old(outgoing)
    {
      var sent: nat := 0;
      var patience := IdleTime();
      while sent < |data|
        invariant sent <= |data| && outgoing == old(outgoing) + data[..sent]
        invariant closed ==> sent == 0
        invariant (old(cancelled) ==> cancelled) && (cancelled ==> old(cancelled) || (cancellable && !calm))
        invariant old(cancelled) && !closed ==> sent == 0
        decreases |data| - sent, patience
      {
        var problem := CheckReady(patience);
        if problem.Some? {
          return Err(problem.value);
        }
        var waits: bool, count: int := *, *;
        if waits && patience > 0 {
          patience := patience - 1;
        } else {
          if calm && !(1 <= count <= |data| - sent) {
            count := |data| - sent;
          }
          if count <= 0 {
            return Err(EndOfStream);
          }
          if count > |data| - sent {
            return Err(SocketFailure);
          }
          assert data[..sent + count] == data[..sent] + data[sent..sent + count];
          outgoing := outgoing + data[sent..sent + count];
          sent := sent + count;
          patience := IdleTime();
        }
      }
      return Ok(|data|);
    }

    /** Some of what the peer sends next; nothing exactly when the peer has closed. */
    method Read(size: nat) returns (r: Result<seq<byte>, StreamError>)
      requires size > 0
      modifies this`incoming, this`cancelled
      ensures r.Ok? ==>
        |r.value| <= size && old(incoming) == r.value + incoming && (r.value == [] <==> old(incoming) == [])
      ensures r.Err? ==> incoming == old(incoming) && r.error != EndOfStream
      ensures closed ==> r == Err(Closed)
      ensures calm && !closed && !old(cancelled) ==> r.Ok?
      ensures r == Err(Cancelled) ==> cancelled
      ensures cancelled ==> old(cancelled) || (cancellable && !calm)
      ensures old(cancelled) ==> cancelled
      ensures old(cancelled) && !closed ==> r == Err(Cancelled)
    {
      var patience := IdleTime();
      while true
        invariant incoming == old(incoming)
        invariant (old(cancelled) ==> cancelled) && (cancelled ==> old(cancelled) || (cancellable && !calm))
        decreases patience
      {
        var problem := CheckReady(patience);
        if problem.Some? {
          return Err(problem.value);
        }
        var waits: bool, fails: bool, count: int := *, *, *;
        if fails && !calm {
          return Err(SocketFailure);
        }
        if !waits || patience == 0 {
          var most := if size < |incoming| then size else |incoming|;
          var n := if 1 <= count <= most then count else most;
          var chunk := incoming[..n];
          incoming := incoming[n..];
          return Ok(chunk);
        }
        patience := patience - 1;
      }
    }

    /** Exactly `size` bytes, over any chunking; end of stream only when there are too few. */
    method ReadExact(size: nat) returns (r: Result<seq<byte>, StreamError>)
      modifies this`incoming, this`cancelled
      ensures r.Ok? ==> |r.value| == size && old(incoming) == r.value + incoming
      ensures r == Err(EndOfStream) ==> |old(incoming)| < size && incoming == []
      ensures SuffixOf(incoming, old(incoming))
      ensures calm && !closed && !old(cancelled) ==> r.Ok? || r == Err(EndOfStream)
      ensures r == Err(Cancelled) ==> cancelled
      ensures cancelled ==> old(cancelled) || (cancellable && !calm)
      ensures old(cancelled) ==> cancelled
      ensures old(cancelled) && !closed && size > 0 ==> r == Err(Cancelled)
    {
      var chunks: seq<byte> := [];
      var remaining := size;
      while remaining > 0
        invariant 0 <= remaining && |chunks| + remaining == size && old(incoming) == chunks + incoming
        invariant (old(cancelled) ==> cancelled) && (cancelled ==> old(cancelled) || (cancellable && !calm))
        invariant old(cancelled) && !closed ==> remaining == size
      {
        var chunk := Read(remaining);
        if chunk.Err? {
          return chunk;
        }
        if chunk.value == [] {
          return Err(EndOfStream);
        }
        chunks := chunks + chunk.value;
        remaining := remaining - |chunk.value|;
      }
      return Ok(chunks);
    }
  }
}
