/** The line-oriented control channel (`openadb/core/acbridge_p2p.py`, `_P2PControlChannel`). */
module ControlChannel {
  import opened Bytes
  import opened Wrappers

  const NEWLINE: byte := 10
  const RETURN: byte := 13
  const MAX_LINE: nat := 65_536
  const RECEIVE: nat := 8_192

  datatype ChannelError = Oversized | Cancelled | TimedOut | EndOfChannel | SocketFailure

  // ---------------------------------------------------------------- lines

  ghost predicate NewlineFree(s: seq<byte>) {
    forall i :: 0 <= i < |s| ==> s[i] != NEWLINE
  }

  ghost predicate AreLines(lines: seq<seq<byte>>) {
    forall i :: 0 <= i < |lines| ==> NewlineFree(lines[i]) && |lines[i]| <= MAX_LINE
  }

  /** The lines, each with its newline, one after the other. */
  function Unlines(lines: seq<seq<byte>>): seq<byte> {
    if lines == [] then [] else lines[0] + [NEWLINE] + Unlines(lines[1..])
  }

  /** More than a line's worth of bytes and no newline among them. */
  ghost predicate TooLong(s: seq<byte>) {
    |s| > MAX_LINE && NewlineFree(s[..MAX_LINE + 1])
  }

  /** What the caller sees of a raw line. */
  function Stripped(raw: seq<byte>): seq<byte> {
    if raw != [] && raw[|raw| - 1] == RETURN then raw[..|raw| - 1] else raw
  }

  /** A line may end in a newline alone or in a carriage return and a newline. */
  lemma ReturnIsStripped(line: seq<byte>)
    ensures Stripped(line + [13]) == line
    ensures (line == [] || line[|line| - 1] != 13) ==> Stripped(line) == line
  {
  }

  /** The limit: a line of 65536 bytes is one, a longer one is none. */
  lemma LineLimit(lines: seq<seq<byte>>, s: seq<byte>)
    ensures AreLines(lines) <==> forall i :: 0 <= i < |lines| ==>
      |lines[i]| <= 65_536 && forall k :: 0 <= k < |lines[i]| ==> lines[i][k] != 10
    ensures TooLong(s) <==> |s| >= 65_537 && forall k :: 0 <= k < 65_537 ==> s[k] != 10
  {
    assert |s| >= 65_537 ==> forall k :: 0 <= k < 65_537 ==> s[..65_537][k] == s[k];
  }

  function FindNewline(s: seq<byte>): (at: Option<nat>)
    ensures at.None? ==> NewlineFree(s)
    ensures at.Some? ==> at.value < |s| && s[at.value] == NEWLINE && NewlineFree(s[..at.value])
  {
    if s == [] then None
    else if s[0] == NEWLINE then Some(0)
    else match FindNewline(s[1..])
      case None => assert NewlineFree(s[1..]); None
      case Some(n) =>
        assert forall i :: 1 <= i < n + 1 ==> s[i] == s[1..][..n][i - 1];
        Some(n + 1)
  }

  lemma {:induction false} UnlinesAppend(lines: seq<seq<byte>>, raw: seq<byte>)
    ensures Unlines(lines + [raw]) == Unlines(lines) + (raw + [NEWLINE])
  {
    if lines == [] {
      assert [raw][1..] == [];
    } else {
      UnlinesAppend(lines[1..], raw);
      assert (lines + [raw])[1..] == lines[1..] + [raw];
    }
  }

  // ---------------------------------------------------------------- the lines are fixed by the bytes

  ghost predicate EndsAt(s: seq<byte>, n: nat) {
    n < |s| && s[n] == NEWLINE && forall i :: 0 <= i < n ==> s[i] != NEWLINE
  }

  lemma SameFirstLine(a: seq<byte>, r: seq<byte>, b: seq<byte>, s: seq<byte>)
    requires NewlineFree(a) && NewlineFree(b) && a + [NEWLINE] + r == b + [NEWLINE] + s
    ensures a == b && r == s
  {
    var whole := a + [NEWLINE] + r;
    assert EndsAt(whole, |a|) && EndsAt(whole, |b|);
    assert |a| == |b|;
    assert whole[..|a|] == a && whole[..|b|] == b;
    assert whole[|a| + 1..] == r && whole[|b| + 1..] == s;
  }

  /** Two ways to read lines off the same bytes agree as far as both have come. */
  lemma {:induction false} LinesAreDetermined(a: seq<seq<byte>>, r: seq<byte>, b: seq<seq<byte>>, s: seq<byte>)
    requires AreLines(a) && AreLines(b) && |a| <= |b| && Unlines(a) + r == Unlines(b) + s
    ensures a == b[..|a|] && r == Unlines(b[|a|..]) + s
  {
    if a == [] {
      assert Unlines(a) + r == r && b[0..] == b;
    } else {
      assert Unlines(a) + r == a[0] + [NEWLINE] + (Unlines(a[1..]) + r);
      assert Unlines(b) + s == b[0] + [NEWLINE] + (Unlines(b[1..]) + s);
      SameFirstLine(a[0], Unlines(a[1..]) + r, b[0], Unlines(b[1..]) + s);
      LinesAreDetermined(a[1..], r, b[1..], s);
      assert a == [a[0]] + a[1..] && b[..|a|] == [b[0]] + b[1..][..|a| - 1];
      assert b[1..][|a| - 1..] == b[|a|..];
    }
  }

  lemma LinesAreNotTooLong(lines: seq<seq<byte>>, s: seq<byte>)
    requires AreLines(lines) && lines != []
    ensures !TooLong(Unlines(lines) + s)
  {
    var whole := Unlines(lines) + s;
    assert whole[|lines[0]|] == NEWLINE;
    assert |whole| > MAX_LINE ==> whole[..MAX_LINE + 1][|lines[0]|] == NEWLINE;
  }

  /** Where the bytes become too long, no reading of them gets any further. */
  lemma OversizeIsDetermined(a: seq<seq<byte>>, r: seq<byte>, b: seq<seq<byte>>, s: seq<byte>)
    requires AreLines(a) && AreLines(b) && Unlines(a) + r == Unlines(b) + s && TooLong(r)
    ensures |b| <= |a| && b == a[..|b|]
    ensures TooLong(s) ==> a == b
  {
    hide TooLong, AreLines, Unlines;
    if |a| < |b| {
      LinesAreDetermined(a, r, b, s);
      LinesAreNotTooLong(Tail(b, |a|), s);
      assert false;
    }
    LinesAreDetermined(b, s, a, r);
    if TooLong(s) && |b| < |a| {
      LinesAreNotTooLong(Tail(a, |b|), r);
      assert false;
    }
    assert |a| == |b| ==> b[..|a|] == b;
  }

  function Tail(lines: seq<seq<byte>>, n: nat): (tail: seq<seq<byte>>)
    requires AreLines(lines) && n < |lines|
    ensures tail != [] && tail == lines[n..] && AreLines(tail)
  {
    lines[n..]
  }

  // ---------------------------------------------------------------- the channel

  ghost predicate Conserved(total: seq<byte>, lines: seq<seq<byte>>, buffer: seq<byte>, incoming: seq<byte>) {
    AreLines(lines) && total == Unlines(lines) + buffer + incoming
  }

  lemma LineTaken(total: seq<byte>, lines: seq<seq<byte>>, buffer: seq<byte>, incoming: seq<byte>, n: nat)
    requires Conserved(total, lines, buffer, incoming)
    requires n < |buffer| && n <= MAX_LINE && buffer[n] == NEWLINE && NewlineFree(buffer[..n])
    ensures Conserved(total, lines + [buffer[..n]], buffer[n + 1..], incoming)
  {
    UnlinesAppend(lines, buffer[..n]);
    assert buffer == buffer[..n] + [NEWLINE] + buffer[n + 1..];
  }

  class Channel {
    /** All bytes the peer ever sends, and the raw lines handed out so far. */
    ghost const total: seq<byte>
    /** Nobody cancels, no call fails, and bytes arrive before every deadline. */
    const calm: bool
    ghost var lines: seq<seq<byte>>
    var buffer: seq<byte>
    var incoming: seq<byte>
    var outgoing: seq<byte>
    var closed: bool

    ghost predicate Inv()
      reads this
    {
      Conserved(total, lines, buffer, incoming) && |buffer| <= MAX_LINE + RECEIVE
    }

    constructor (incoming: seq<byte>, calm: bool)
      ensures Inv() && total == this.incoming == incoming && buffer == [] && lines == [] && outgoing == []
      ensures !closed && this.calm == calm
    {
      this.calm := calm;
      total, lines, buffer := incoming, [], [];
      this.incoming, outgoing, closed := incoming, [], false;
    }

    method SomeTime() returns (waits: nat)
    {
      var any: int := *;
      waits := if any < 0 then 0 else any;
    }

    /** The next line, over any chunking and any waits.  Whatever happens, no byte is lost.
        `cancellable` says that a cancel flag is given, `cancelled` that it is set before the call,
        and `expired` that the deadline has passed then. */
    method ReadLine(allowTimeout: bool, cancellable: bool, cancelled: bool, expired: bool)
      returns (r: Result<seq<byte>, ChannelError>, ghost timedOut: bool)
      requires Inv()
      modifies this`buffer, this`incoming, this`lines
      ensures Inv()
      ensures r.Ok? && !timedOut ==>
        |lines| == |old(lines)| + 1 && lines[..|old(lines)|] == old(lines) && r.value == Stripped(lines[|old(lines)|])
      ensures r.Err? || timedOut ==> lines == old(lines) && buffer + incoming == old(buffer + incoming)
      ensures timedOut ==> allowTimeout && r == Ok([])
      ensures r == Err(Oversized) ==> TooLong(buffer)
      ensures (r.Err? && r.error != Oversized) || timedOut ==> NewlineFree(buffer) && |buffer| <= MAX_LINE
      ensures r == Err(EndOfChannel) ==> closed || incoming == []
      ensures closed && r.Ok? && !timedOut ==> incoming == old(incoming)
      ensures calm && !timedOut && r.Err? ==> r.error in {Oversized, EndOfChannel}
      ensures calm && !closed ==> !timedOut
      ensures r == Err(Cancelled) ==> cancellable
      ensures expired && allowTimeout && !cancellable && !calm ==>
        NewlineFree(old(buffer)) && |old(buffer)| <= MAX_LINE ==> timedOut
      ensures cancelled && cancellable && !calm ==> NewlineFree(old(buffer)) && |old(buffer)| <= MAX_LINE ==>
        r == Err(Cancelled)
    {
      hide Conserved, NewlineFree;
      timedOut := false;
      var patience := SomeTime();
      while true
        invariant Inv() && lines == old(lines) && buffer + incoming == old(buffer + incoming)
        invariant closed ==> incoming == old(incoming)
        invariant (expired || (cancelled && cancellable)) && !calm ==> buffer == old(buffer)
        decreases |incoming|, patience
      {
        var newline := FindNewline(buffer);
        SomeNewline(buffer, newline);
        if newline.Some? {
          if newline.value > MAX_LINE {
            LongPrefix(buffer, newline.value);
            return Err(Oversized), false;
          }
          var raw := buffer[..newline.value];
          LineTaken(total, lines, buffer, incoming, newline.value);
          buffer := buffer[newline.value + 1..];
          lines := lines + [raw];
          return Ok(Stripped(raw)), false;
        }
        if |buffer| > MAX_LINE {
          assert buffer[..|buffer|] == buffer;
          LongPrefix(buffer, |buffer|);
          return Err(Oversized), false;
        }
        var now: bool := *;
        if (cancelled || now) && cancellable && !calm {
          return Err(Cancelled), false;
        }
        if (expired || patience == 0) && !calm {
          if allowTimeout {
            return Ok([]), true;
          }
          return Err(TimedOut), false;
        }
        if closed {
          return Err(EndOfChannel), false;
        }
        var fails: bool, waits: bool, any: int := *, *, *;
        if fails && !calm {
          return Err(SocketFailure), false;
        }
        if waits && patience > 0 {
          patience := patience - 1;
          continue;
        }
        if incoming == [] {
          return Err(EndOfChannel), false;
        }
        var most := if RECEIVE < |incoming| then RECEIVE else |incoming|;
        var n := if 1 <= any <= most then any else most;
        Received(total, lines, buffer, incoming, n);
        buffer, incoming := buffer + incoming[..n], incoming[n..];
        if |buffer| > MAX_LINE && FindNewline(buffer).None? {
          assert buffer[..|buffer|] == buffer;
          LongPrefix(buffer, |buffer|);
          return Err(Oversized), false;
        }
        patience := SomeTime();
      }
    }

    /** Short sends deliver the payload in order: all of it, or a proper prefix. */
    method WritePayload(payload: seq<byte>, cancellable: bool, cancelled: bool) returns (problem: Option<ChannelError>)
      modifies this`outgoing
      ensures problem.None? ==> outgoing == old(outgoing) + payload
      ensures problem.Some? ==> exists sent :: 0 <= sent < |payload| && outgoing == old(outgoing) + payload[..sent]
      ensures closed ==> outgoing == old(outgoing)
      ensures calm && !closed ==> problem.None?
      ensures problem == Some(Cancelled) ==> cancellable
      ensures cancelled && cancellable && !calm && payload != [] ==>
        problem == Some(Cancelled) && outgoing == old(outgoing)
    {
      var sent := 0;
      var patience := SomeTime();
      while sent < |payload|
        invariant 0 <= sent <= |payload| && outgoing == old(outgoing) + payload[..sent]
        invariant closed || (cancelled && cancellable && !calm) ==> sent == 0
        decreases |payload| - sent, patience
      {
        var now: bool, waits: bool, count: int := *, *, *;
        if (cancelled || now) && cancellable && !calm {
          return Some(Cancelled);
        }
        if closed {
          return Some(EndOfChannel);
        }
        if waits && !(calm && patience == 0) {
          if patience == 0 {
            return Some(TimedOut);
          }
          patience := patience - 1;
          continue;
        }
        if calm && !(1 <= count <= |payload| - sent) {
          count := |payload| - sent;
        }
        if count <= 0 || count > |payload| - sent {
          return Some(EndOfChannel);
        }
        assert payload[..sent + count] == payload[..sent] + payload[sent..sent + count];
        outgoing := outgoing + payload[sent..sent + count];
        sent := sent + count;
      }
      return None;
    }
  }

  lemma SomeNewline(s: seq<byte>, at: Option<nat>)
    requires at.Some? ==> at.value < |s| && s[at.value] == NEWLINE
    ensures NewlineFree(s) ==> at.None?
  {
  }

  lemma LongPrefix(s: seq<byte>, n: nat)
    requires MAX_LINE < n <= |s| && NewlineFree(s[..n])
    ensures TooLong(s)
  {
    assert s[..MAX_LINE + 1] == s[..n][..MAX_LINE + 1];
  }

  lemma Received(total: seq<byte>, lines: seq<seq<byte>>, buffer: seq<byte>, incoming: seq<byte>, n: nat)
    requires Conserved(total, lines, buffer, incoming) && n <= |incoming|
    ensures Conserved(total, lines, buffer + incoming[..n], incoming[n..])
    ensures (buffer + incoming[..n]) + incoming[n..] == buffer + incoming
  {
    assert incoming == incoming[..n] + incoming[n..];
  }

  /** Two channels fed the same bytes, whatever the chunks and the waits: the lines of the one
      that has read less are the first lines of the other. */
  lemma ChannelsAgree(total: seq<byte>, a: seq<seq<byte>>, bufferA: seq<byte>, incomingA: seq<byte>,
                      b: seq<seq<byte>>, bufferB: seq<byte>, incomingB: seq<byte>)
    requires Conserved(total, a, bufferA, incomingA) && Conserved(total, b, bufferB, incomingB)
    ensures |a| <= |b| ==> a == b[..|a|]
    ensures TooLong(bufferA) ==> |b| <= |a|
    ensures TooLong(bufferA) && TooLong(bufferB) ==> a == b
    ensures TooLong(bufferA) && incomingB == [] ==> !(NewlineFree(bufferB) && |bufferB| <= MAX_LINE)
  {
    if TooLong(bufferA) && incomingB == [] {
      NoEndWhereOversized(total, a, bufferA, incomingA, b, bufferB);
    }
    hide AreLines, NewlineFree, Unlines, TooLong;
    assert Unlines(a) + bufferA + incomingA == Unlines(a) + (bufferA + incomingA);
    assert Unlines(b) + bufferB + incomingB == Unlines(b) + (bufferB + incomingB);
    if |a| <= |b| {
      LinesAreDetermined(a, bufferA + incomingA, b, bufferB + incomingB);
    }
    if TooLong(bufferA) {
      StillTooLong(bufferA, incomingA);
      OversizeIsDetermined(a, bufferA + incomingA, b, bufferB + incomingB);
      if TooLong(bufferB) {
        StillTooLong(bufferB, incomingB);
      }
    }
  }

  /** Where one channel reports an oversized line, no other one fed the same bytes comes to
      their end. */
  lemma NoEndWhereOversized(total: seq<byte>, a: seq<seq<byte>>, bufferA: seq<byte>, incomingA: seq<byte>,
                            b: seq<seq<byte>>, bufferB: seq<byte>)
    requires Conserved(total, a, bufferA, incomingA) && TooLong(bufferA) && Conserved(total, b, bufferB, [])
    ensures !(NewlineFree(bufferB) && |bufferB| <= MAX_LINE)
  {
    hide AreLines, Unlines, TooLong, NewlineFree;
    assert Unlines(a) + bufferA + incomingA == Unlines(a) + (bufferA + incomingA);
    assert Unlines(b) + bufferB + [] == Unlines(b) + bufferB;
    StillTooLong(bufferA, incomingA);
    OversizeIsDetermined(a, bufferA + incomingA, b, bufferB);
    LinesAreDetermined(b, bufferB, a, bufferA + incomingA);
    LongTail(a[|b|..], bufferA + incomingA);
  }

  /** Bytes that end too long hold a newline or are too long themselves. */
  lemma LongTail(lines: seq<seq<byte>>, s: seq<byte>)
    requires TooLong(s)
    ensures !(NewlineFree(Unlines(lines) + s) && |Unlines(lines) + s| <= MAX_LINE)
  {
    assert |Unlines(lines) + s| >= |s|;
  }

  lemma StillTooLong(s: seq<byte>, more: seq<byte>)
    requires TooLong(s)
    ensures TooLong(s + more)
  {
    assert (s + more)[..MAX_LINE + 1] == s[..MAX_LINE + 1];
  }

  // ---------------------------------------------------------------- a caller that allows the timeout

  /** "ERROR" and a tab. */
  const ERROR: seq<byte> := [69, 82, 82, 79, 82, 9]

  predicate IsError(line: seq<byte>) {
    ERROR <= line
  }

  /** What `_fetch_session_error` finds in the lines it reads: it gives up at an empty one. */
  function Diagnosis(lines: seq<seq<byte>>): Option<seq<byte>> {
    if lines == [] || Stripped(lines[0]) == [] then None
    else if IsError(Stripped(lines[0])) then Some(Stripped(lines[0])[|ERROR|..])
    else Diagnosis(lines[1..])
  }

  /** Exactly: an error line is found if and only if no empty line stands before it. */
  lemma {:induction false} DiagnosisIsFound(lines: seq<seq<byte>>)
    ensures Diagnosis(lines).Some? <==>
      exists i :: 0 <= i < |lines| && IsError(Stripped(lines[i])) && AllNonEmpty(lines[..i])
  {
    if lines != [] {
      DiagnosisIsFound(lines[1..]);
      if Diagnosis(lines[1..]).Some? && Stripped(lines[0]) != [] {
        var i :| 0 <= i < |lines[1..]| && IsError(Stripped(lines[1..][i])) && AllNonEmpty(lines[1..][..i]);
        assert lines[..i + 1] == [lines[0]] + lines[1..][..i] && lines[i + 1] == lines[1..][i];
      }
      assert IsError(Stripped(lines[0])) ==> AllNonEmpty(lines[..0]) && Stripped(lines[0]) != [];
      forall i | 0 < i < |lines| && IsError(Stripped(lines[i])) && AllNonEmpty(lines[..i])
        ensures Diagnosis(lines).Some?
      {
        assert lines[..i][0] == lines[0] && lines[1..][..i - 1] == lines[..i][1..] && lines[1..][i - 1] == lines[i];
      }
    }
  }

  /** The letters ERROR and a tab, then the text. */
  lemma ErrorIsSpelled(text: seq<byte>)
    requires text == [] || text[|text| - 1] != 13
    ensures Diagnosis([[0x45, 0x52, 0x52, 0x4F, 0x52, 0x09] + text]) == Some(text)
  {
    var line := [0x45, 0x52, 0x52, 0x4F, 0x52, 0x09] + text;
    assert line[|line| - 1] == if text == [] then 0x09 else text[|text| - 1];
    assert Stripped(line) == line && ERROR <= line && line[|ERROR|..] == text;
  }

  predicate AllNonEmpty(lines: seq<seq<byte>>) {
    forall i :: 0 <= i < |lines| ==> Stripped(lines[i]) != []
  }

  lemma {:induction false} DiagnosisAppend(lines: seq<seq<byte>>, raw: seq<byte>)
    requires AllNonEmpty(lines) && forall i :: 0 <= i < |lines| ==> !IsError(Stripped(lines[i]))
    ensures Diagnosis(lines) == None && Diagnosis(lines + [raw]) == Diagnosis([raw])
  {
    if lines == [] {
      assert lines + [raw] == [raw];
    } else {
      assert AllNonEmpty(lines[1..]);
      DiagnosisAppend(lines[1..], raw);
      assert (lines + [raw])[1..] == lines[1..] + [raw];
    }
  }

  lemma {:induction false} LinesFit(lines: seq<seq<byte>>)
    ensures |lines| <= |Unlines(lines)|
  {
    if lines != [] {
      LinesFit(lines[1..]);
    }
  }

  lemma LinesAreFewer(total: seq<byte>, lines: seq<seq<byte>>, buffer: seq<byte>, incoming: seq<byte>)
    requires Conserved(total, lines, buffer, incoming)
    ensures |lines| <= |total|
  {
    LinesFit(lines);
  }

  /** `_fetch_session_error`: read lines until an error line, an empty answer, a failure, or the
      end of its time.  The result is what the lines it took contain. */
  method FetchSessionError(c: Channel, cancellable: bool, cancelled: bool) returns (r: Option<seq<byte>>)
    requires c.Inv()
    modifies c
    ensures c.Inv() && |old(c.lines)| <= |c.lines| && c.lines[..|old(c.lines)|] == old(c.lines)
    ensures r == Diagnosis(c.lines[|old(c.lines)|..])
    ensures cancelled && !c.calm ==> r.None? && c.lines == old(c.lines)
    ensures c.calm && !old(c.closed) && r.None? ==>
      || (|c.lines| > |old(c.lines)| && Stripped(c.lines[|c.lines| - 1]) == [])
      || c.incoming == [] || TooLong(c.buffer)
  {
    hide Conserved, TooLong, Stripped;
    ghost var n := |c.lines|;
    while true
      invariant c.Inv() && n <= |c.lines| && c.lines[..n] == old(c.lines) && c.closed == old(c.closed)
      invariant cancelled && !c.calm ==> c.lines == old(c.lines)
      invariant forall i :: 0 <= i < |c.lines[n..]| ==>
        Stripped(c.lines[n..][i]) != [] && !IsError(Stripped(c.lines[n..][i]))
      decreases |c.total| - |c.lines|
    {
      ghost var before := c.lines;
      LinesAreFewer(c.total, c.lines, c.buffer, c.incoming);
      var late: bool := *;
      DiagnosisAppend(c.lines[n..], []);
      if (late || cancelled) && !c.calm {
        return None;
      }
      var answer;
      ghost var timedOut;
      answer, timedOut := c.ReadLine(true, cancellable, cancelled, false);
      if answer.Err? {
        return None;
      }
      LinesAreFewer(c.total, c.lines, c.buffer, c.incoming);
      if !timedOut {
        assert c.lines[n..] == before[n..] + [c.lines[|before|]];
        DiagnosisAppend(before[n..], c.lines[|before|]);
        OneLine(c.lines[|before|]);
      }
      if answer.value == [] {
        return None;
      }
      if IsError(answer.value) {
        return Some(answer.value[|ERROR|..]);
      }
    }
  }

  lemma OneLine(raw: seq<byte>)
    ensures var line := Stripped(raw);
      Diagnosis([raw]) == if IsError(line) then Some(line[|ERROR|..]) else None
  {
  }

  /** The same bytes, and the same empty answer: once a line was taken, once the time was over.
      A caller that allows the timeout cannot tell which; only what is left to read differs. */
  method EmptyLineOrTimeout(rest: seq<byte>)
    returns (line: Result<seq<byte>, ChannelError>, timeout: Result<seq<byte>, ChannelError>,
             leftByLine: seq<byte>, leftByTimeout: seq<byte>)
    ensures line == timeout == Ok([])
    ensures leftByLine == rest && leftByTimeout == [NEWLINE] + rest
  {
    var a := new Channel([NEWLINE] + rest, true);
    var b := new Channel([NEWLINE] + rest, false);
    ghost var timedOut;
    line, timedOut := a.ReadLine(true, false, false, false);
    FirstLineIsEmpty(rest, a.lines, a.buffer, a.incoming);
    timeout, timedOut := b.ReadLine(true, false, false, true);
    leftByLine, leftByTimeout := a.buffer + a.incoming, b.buffer + b.incoming;
  }

  lemma FirstLineIsEmpty(rest: seq<byte>, lines: seq<seq<byte>>, buffer: seq<byte>, incoming: seq<byte>)
    requires Conserved([NEWLINE] + rest, lines, buffer, incoming)
    ensures lines == [] ==> !TooLong(buffer) && !(NewlineFree(buffer) && incoming == [])
    ensures |lines| == 1 ==> lines == [[]] && buffer + incoming == rest
  {
    var total := [NEWLINE] + rest;
    if lines == [] {
      assert total == buffer + incoming && total[0] == NEWLINE;
      if buffer != [] {
        assert buffer[0] == total[0];
        assert |buffer| > MAX_LINE ==> buffer[..MAX_LINE + 1][0] == NEWLINE;
      }
    } else if |lines| == 1 {
      assert lines[1..] == [] && Unlines(lines[1..]) == [];
      assert Unlines(lines) == lines[0] + [NEWLINE];
      assert total == lines[0] + [NEWLINE] + (buffer + incoming);
      assert total == [] + [NEWLINE] + rest;
      SameFirstLine([], rest, lines[0], buffer + incoming);
    }
  }
}
