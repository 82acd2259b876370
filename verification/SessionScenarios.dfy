/** What one upload call does from its beginning to its end, told in full, while any other calls
    are under way (`openadb/core/acbridge_p2p.py`, `_upload_entry_batch`). */
module SessionScenarios {
  import opened Wrappers
  import opened SessionLifecycle

  function Play(s: State, actions: seq<Action>): Option<State>
    decreases actions
  {
    if actions == [] then Some(s)
    else if Enabled(s, actions[0]) then Play(Apply(s, actions[0]), actions[1..])
    else None
  }

  lemma {:induction false} PlayMore(s: State, first: seq<Action>, then': seq<Action>)
    requires Play(s, first).Some?
    ensures Play(s, first + then') == Play(Play(s, first).value, then')
    decreases first
  {
    if first == [] {
      assert first + then' == then';
    } else {
      PlayMore(Apply(s, first[0]), first[1..], then');
      assert (first + then')[1..] == first[1..] + then';
    }
  }

  lemma PlayOne(s: State, a: Action)
    ensures Play(s, [a]) == if Enabled(s, a) then Some(Apply(s, a)) else None
  {
    assert [a][1..] == [];
  }

  /** A new call with a new id and a free port can begin whenever nobody prepares. */
  ghost predicate CanBegin(s: State, c: CallId, id: RequestId, port: Port) {
    c !in s.calls && s.lock.None? && id !in s.handles && PortsOf(s.forwards, id) == {} && port !in s.forwards
  }

  function Preparation(c: CallId, id: RequestId, port: Port): seq<Action> {
    [Arrive(c), Acquire(c), ChooseId(c, id), Forward(c, Some(port), Told), Store(c)]
  }

  function Connection(c: CallId): seq<Action> {
    [Start(c, Accepted), Connect(c, true)]
  }

  function CleanUp(c: CallId): seq<Action> {
    [Pop(c), SendCommand(c), Unforward(c, true)]
  }

  lemma Then(s: State, a: Action, t: State, rest: seq<Action>)
    requires Enabled(s, a) && Apply(s, a) == t
    ensures Play(s, [a] + rest) == Play(t, rest)
  {
    assert ([a] + rest)[1..] == rest;
  }

  function New(phase: Phase, id: RequestId): Call {
    Call(phase, id, Nothing, [], true)
  }

  /** The lock is held and the request has its id. */
  lemma TakesAnId(s: State, c: CallId, id: RequestId, rest: seq<Action>)
    requires c !in s.calls && s.lock.None? && id !in s.handles && PortsOf(s.forwards, id) == {}
    ensures Play(s, [Arrive(c)] + ([Acquire(c)] + ([ChooseId(c, id)] + rest)))
      == Play(s.(lock := Some(c), calls := s.calls[c := New(Named, id)]), rest)
  {
    hide PortsOf, Play;
    var s1 := s.(calls := s.calls[c := New(Waiting, 0)]);
    var s2 := s.(lock := Some(c), calls := s.calls[c := New(Preparing, 0)]);
    var s3 := s.(lock := Some(c), calls := s.calls[c := New(Named, id)]);
    assert s1.calls[c := New(Preparing, 0)] == s2.calls && s2.calls[c := New(Named, id)] == s3.calls;
    Then(s, Arrive(c), s1, [Acquire(c)] + ([ChooseId(c, id)] + rest));
    Then(s1, Acquire(c), s2, [ChooseId(c, id)] + rest);
    Then(s2, ChooseId(c, id), s3, rest);
  }

  /** The session is prepared: the lock is held, the forward is made, the handle is stored. */
  lemma Prepares(s: State, c: CallId, id: RequestId, port: Port)
    requires CanBegin(s, c, id, port)
    ensures Play(s, Preparation(c, id, port)) == Some(State(
      Some(c), s.handles[id := Handle(port, false, false)], s.forwards[port := Control(id)],
      s.calls[c := New(Tracked, id)]))
  {
    var s3 := s.(lock := Some(c), calls := s.calls[c := New(Named, id)]);
    var s4 := s3.(forwards := s.forwards[port := Control(id)], calls := s.calls[c := New(Forwarded(port), id)]);
    var s5 := s4.(handles := s.handles[id := Handle(port, false, false)], calls := s.calls[c := New(Tracked, id)]);
    assert s3.calls[c := New(Forwarded(port), id)] == s4.calls && s4.calls[c := New(Tracked, id)] == s5.calls;
    var forward, store := Forward(c, Some(port), Told), Store(c);
    TakesAnId(s, c, id, [forward] + [store]);
    AfterForward(s3, c, id, port);
    AfterStore(s4, c, id, port);
    hide PortsOf, Play, Enabled, Apply;
    Then(s3, forward, s4, [store]);
    PlayOne(s4, store);
    assert Preparation(c, id, port) == [Arrive(c)] + ([Acquire(c)] + ([ChooseId(c, id)] + ([forward] + [store])));
  }

  lemma AfterForward(s: State, c: CallId, id: RequestId, port: Port)
    requires InPhase(s, c, Named) && s.calls[c] == New(Named, id) && port !in s.forwards
    ensures Enabled(s, Forward(c, Some(port), Told))
    ensures Apply(s, Forward(c, Some(port), Told))
      == s.(forwards := s.forwards[port := Control(id)], calls := s.calls[c := New(Forwarded(port), id)])
  {
    hide PortsOf;
  }

  lemma AfterStore(s: State, c: CallId, id: RequestId, port: Port)
    requires InPhase(s, c, Forwarded(port)) && s.calls[c] == New(Forwarded(port), id) && id !in s.handles
    ensures Enabled(s, Store(c))
    ensures Apply(s, Store(c))
      == s.(handles := s.handles[id := Handle(port, false, false)], calls := s.calls[c := New(Tracked, id)])
  {
    hide PortsOf;
  }

  /** The service is up and the control channel open. */
  lemma Connects(s: State, c: CallId)
    requires InPhase(s, c, Tracked) && s.calls[c].id in s.handles
    ensures Play(s, Connection(c)) == Some(s.(
      handles := s.handles[s.calls[c].id := s.handles[s.calls[c].id].(started := true, channel := true)],
      calls := s.calls[c := s.calls[c].(phase := Reading)]))
  {
    var call, h := s.calls[c], s.handles[s.calls[c].id];
    var up := s.(handles := s.handles[call.id := h.(started := true)],
      calls := s.calls[c := call.(phase := ServiceUp)]);
    var reading := s.(handles := s.handles[call.id := h.(started := true, channel := true)],
                       calls := s.calls[c := call.(phase := Reading)]);
    assert up.handles[call.id := h.(started := true, channel := true)] == reading.handles;
    assert up.calls[c := call.(phase := Reading)] == reading.calls;
    hide Play;
    Then(s, Start(c, Accepted), up, [Connect(c, true)]);
    PlayOne(up, Connect(c, true));
    assert Connection(c) == [Start(c, Accepted)] + [Connect(c, true)];
  }

  /** The clean-up of a session whose channel is open: one command, then nothing is left. */
  lemma CleansUp(s: State, c: CallId, h: Handle, signal: bool)
    requires InPhase(s, c, Ending(signal)) && Get(s.handles, s.calls[c].id) == Some(h) && h.channel
      && s.calls[c].sent == []
    ensures Play(s, CleanUp(c)) == Some(State(
      if s.lock == Some(c) then None else s.lock, s.handles - {s.calls[c].id}, s.forwards - {h.port},
      s.calls[c := s.calls[c].(phase := Over, sent := [if signal then CANCEL else CLOSE])]))
  {
    var call, command := s.calls[c], if signal then CANCEL else CLOSE;
    var popped := s.(handles := s.handles - {call.id}, calls := s.calls[c := call.(phase := Popped(h, signal))]);
    var told := popped.(calls := s.calls[c := call.(phase := Unforwarding(h.port), sent := [command])]);
    var over := s.calls[c := call.(phase := Over, sent := [command])];
    assert popped.calls[c := call.(phase := Unforwarding(h.port), sent := [command])] == told.calls;
    assert told.calls[c := call.(phase := Over, sent := [command])] == over;
    AfterPop(s, c, h, signal);
    AfterCommand(popped, c, h, signal);
    AfterUnforward(told, c, h.port);
    hide Play, Enabled, Apply;
    Then(s, Pop(c), popped, [SendCommand(c)] + [Unforward(c, true)]);
    Then(popped, SendCommand(c), told, [Unforward(c, true)]);
    PlayOne(told, Unforward(c, true));
    assert CleanUp(c) == [Pop(c)] + ([SendCommand(c)] + [Unforward(c, true)]);
  }

  lemma AfterPop(s: State, c: CallId, h: Handle, signal: bool)
    requires InPhase(s, c, Ending(signal)) && Get(s.handles, s.calls[c].id) == Some(h)
    ensures Enabled(s, Pop(c))
    ensures Apply(s, Pop(c)) == s.(handles := s.handles - {s.calls[c].id},
                                   calls := s.calls[c := s.calls[c].(phase := Popped(h, signal))])
  {
    hide PortsOf;
  }

  lemma AfterCommand(s: State, c: CallId, h: Handle, signal: bool)
    requires InPhase(s, c, Popped(h, signal)) && h.channel && s.calls[c].sent == []
    ensures Enabled(s, SendCommand(c))
    ensures Apply(s, SendCommand(c)) == s.(calls := s.calls[c := s.calls[c].(
      phase := Unforwarding(h.port), sent := [if signal then CANCEL else CLOSE])])
  {
    hide PortsOf;
    assert s.calls[c].sent + [if signal then CANCEL else CLOSE] == [if signal then CANCEL else CLOSE];
  }

  lemma AfterUnforward(s: State, c: CallId, port: Port)
    requires InPhase(s, c, Unforwarding(port))
    ensures Enabled(s, Unforward(c, true))
    ensures Apply(s, Unforward(c, true)) == State(if s.lock == Some(c) then None else s.lock, s.handles,
      s.forwards - {port}, s.calls[c := s.calls[c].(phase := Over)])
  {
    hide PortsOf;
  }

  /** From the beginning to READY: the session uploads, and the lock is free again. */
  function UploadScript(c: CallId, id: RequestId, port: Port): seq<Action> {
    Preparation(c, id, port) + Connection(c) + [Status(c, Ready)]
  }

  function UploadState(s: State, c: CallId, id: RequestId, port: Port): State {
    State(None, s.handles[id := Handle(port, true, true)], s.forwards[port := Control(id)],
          s.calls[c := New(Uploading, id)])
  }

  function ReadingState(s: State, c: CallId, id: RequestId, port: Port): State {
    State(Some(c), s.handles[id := Handle(port, true, true)], s.forwards[port := Control(id)],
          s.calls[c := New(Reading, id)])
  }

  lemma ComesToReading(s: State, c: CallId, id: RequestId, port: Port)
    requires CanBegin(s, c, id, port)
    ensures Play(s, Preparation(c, id, port) + Connection(c)) == Some(ReadingState(s, c, id, port))
  {
    Prepares(s, c, id, port);
    var prepared := Play(s, Preparation(c, id, port)).value;
    PlayMore(s, Preparation(c, id, port), Connection(c));
    Connects(prepared, c);
    hide Play, Preparation, Connection, CanBegin;
    assert prepared.handles[id := Handle(port, true, true)] == s.handles[id := Handle(port, true, true)];
    assert prepared.calls[c := New(Reading, id)] == s.calls[c := New(Reading, id)];
  }

  lemma Uploads(s: State, c: CallId, id: RequestId, port: Port)
    requires CanBegin(s, c, id, port)
    ensures Play(s, UploadScript(c, id, port)) == Some(UploadState(s, c, id, port))
  {
    ComesToReading(s, c, id, port);
    var reading := ReadingState(s, c, id, port);
    PlayMore(s, Preparation(c, id, port) + Connection(c), [Status(c, Ready)]);
    PlayOne(reading, Status(c, Ready));
    assert Apply(reading, Status(c, Ready)).calls == UploadState(s, c, id, port).calls;
  }

  /** Uploads run side by side: once one is uploading, another one can prepare and upload. */
  lemma TwoUploadsAtOnce(s: State, c: CallId, id: RequestId, port: Port, d: CallId, id': RequestId, port': Port)
    requires CanBegin(s, c, id, port) && CanBegin(s, d, id', port') && c != d && id != id' && port != port'
    ensures var t := Play(s, UploadScript(c, id, port) + UploadScript(d, id', port'));
      t.Some? && InPhase(t.value, c, Uploading) && InPhase(t.value, d, Uploading)
  {
    Uploads(s, c, id, port);
    var t := UploadState(s, c, id, port);
    PlayMore(s, UploadScript(c, id, port), UploadScript(d, id', port'));
    assert forall p :: p in PortsOf(t.forwards, id') ==> p in PortsOf(s.forwards, id');
    Uploads(t, d, id', port');
  }

  /** The state after a session of its own came and went: only its record is new. */
  function GoneState(s: State, c: CallId, id: RequestId, evidence: Evidence, sent: seq<Command>): State {
    s.(calls := s.calls[c := Call(Over, id, evidence, sent, true)])
  }

  /** The whole life of a session that comes to upload, for each way the upload may end. */
  lemma UploadComesToItsEnd(s: State, c: CallId, id: RequestId, port: Port, outcome: UploadEnd)
    requires CanBegin(s, c, id, port)
    ensures Play(s, UploadScript(c, id, port) + ([Finish(c, outcome)] + CleanUp(c))) == Some(
      match outcome
      case Stored => GoneState(s, c, id, AuthenticatedSuccess, [CLOSE])
      case Failed(true) => GoneState(s, c, id, RemoteError, [CLOSE])
      case _ => GoneState(s, c, id, Nothing, [CANCEL]))
  {
    Uploads(s, c, id, port);
    var t := UploadState(s, c, id, port);
    PlayMore(s, UploadScript(c, id, port), [Finish(c, outcome)] + CleanUp(c));
    PlayOne(t, Finish(c, outcome));
    PlayMore(t, [Finish(c, outcome)], CleanUp(c));
    var ending := Apply(t, Finish(c, outcome));
    CleansUp(ending, c, Handle(port, true, true), ending.calls[c].phase.signal);
    Gone(s, c, id, port, t, ending, ending.calls[c].(phase := Over,
      sent := [if ending.calls[c].phase.signal then CANCEL else CLOSE]));
  }

  lemma Gone(s: State, c: CallId, id: RequestId, port: Port, t: State, ending: State, last: Call)
    requires CanBegin(s, c, id, port)
    requires t.handles == s.handles[id := Handle(port, true, true)] && t.forwards == s.forwards[port := Control(id)]
    requires c in t.calls && t.calls == s.calls[c := t.calls[c]] && c in ending.calls
    requires ending == t.(calls := t.calls[c := ending.calls[c]])
    ensures ending.handles - {id} == s.handles && ending.forwards - {port} == s.forwards
    ensures ending.calls[c := last] == s.calls[c := last]
  {
  }

  /** The same where an ERROR line or an interruption comes instead of READY. */
  lemma ReadingComesToItsEnd(s: State, c: CallId, id: RequestId, port: Port, interrupted: bool)
    requires CanBegin(s, c, id, port)
    ensures Play(s, Preparation(c, id, port) + Connection(c)
                    + ([if interrupted then Interrupt(c) else Status(c, ErrorLine)] + CleanUp(c)))
      == Some(if interrupted then GoneState(s, c, id, Nothing, [CANCEL]) else GoneState(s, c, id, RemoteError, [CLOSE]))
  {
    ComesToReading(s, c, id, port);
    var t, a := ReadingState(s, c, id, port), if interrupted then Interrupt(c) else Status(c, ErrorLine);
    PlayMore(s, Preparation(c, id, port) + Connection(c), [a] + CleanUp(c));
    PlayOne(t, a);
    PlayMore(t, [a], CleanUp(c));
    var ending := Apply(t, a);
    CleansUp(ending, c, Handle(port, true, true), ending.calls[c].phase.signal);
    Gone(s, c, id, port, t, ending, ending.calls[c].(phase := Over,
      sent := [if ending.calls[c].phase.signal then CANCEL else CLOSE]));
  }

  /** adb makes a forward and does not tell its port: the purge finds and removes it. */
  lemma UntoldForwardIsPurged(s: State, c: CallId, id: RequestId, port: Port)
    requires CanBegin(s, c, id, port)
    ensures Play(s, [Arrive(c), Acquire(c), ChooseId(c, id), Forward(c, Some(port), Unclear), List(c, true)]
                    + [Purge(c, port, true), Purged(c), Pop(c)])
      == Some(GoneState(s, c, id, Nothing, []))
  {
    var named := s.(lock := Some(c), calls := s.calls[c := New(Named, id)]);
    var purging := named.(forwards := s.forwards[port := Control(id)], calls := s.calls[c := New(Purging({port}), id)]);
    var forward, end := Forward(c, Some(port), Unclear), [Purge(c, port, true)] + ([Purged(c)] + [Pop(c)]);
    assert named.calls[c := New(Purging({port}), id)] == purging.calls;
    assert named.calls[c := New(Over, id)] == s.calls[c := New(Over, id)];
    TakesAnId(s, c, id, [forward] + ([List(c, true)] + end));
    UntoldForward(named, c, id, port, end);
    PurgeOfOne(named, purging, c, id, port);
    hide Play, PortsOf, Enabled, Apply;
    assert [Arrive(c), Acquire(c), ChooseId(c, id), forward, List(c, true)] + [Purge(c, port, true), Purged(c), Pop(c)]
      == [Arrive(c)] + ([Acquire(c)] + ([ChooseId(c, id)] + ([forward] + ([List(c, true)] + end))));
  }

  lemma UntoldForward(s: State, c: CallId, id: RequestId, port: Port, rest: seq<Action>)
    requires InPhase(s, c, Named) && s.calls[c] == New(Named, id) && PortsOf(s.forwards, id) == {}
      && port !in s.forwards
    ensures Play(s, [Forward(c, Some(port), Unclear)] + ([List(c, true)] + rest))
      == Play(s.(forwards := s.forwards[port := Control(id)], calls := s.calls[c := New(Purging({port}), id)]), rest)
  {
    var t := s.(forwards := s.forwards[port := Control(id)], calls := s.calls[c := New(Untracked, id)]);
    var u := t.(calls := s.calls[c := New(Purging({port}), id)]);
    PortAdded(s.forwards, port, Control(id), id);
    hide PortsOf, Play;
    assert PortsOf(t.forwards, id) == {port};
    assert t.calls[c := New(Purging({port}), id)] == u.calls;
    Then(s, Forward(c, Some(port), Unclear), t, [List(c, true)] + rest);
    Then(t, List(c, true), u, rest);
  }

  lemma PurgeOfOne(s: State, t: State, c: CallId, id: RequestId, port: Port)
    requires port !in s.forwards && t.forwards == s.forwards[port := Control(id)] && t.handles == s.handles
    requires id !in s.handles && t.lock == s.lock == Some(c) && c in s.calls
    requires t.calls == s.calls[c := New(Purging({port}), id)]
    ensures Play(t, [Purge(c, port, true)] + ([Purged(c)] + [Pop(c)]))
      == Some(State(None, s.handles, s.forwards, s.calls[c := New(Over, id)]))
  {
    var u := s.(calls := s.calls[c := New(Purging({}), id)]);
    var v := s.(calls := s.calls[c := New(Ending(false), id)]);
    assert t.forwards - {port} == s.forwards;
    assert t.calls[c := New(Purging({}), id)] == u.calls && u.calls[c := New(Ending(false), id)] == v.calls;
    assert v.calls[c := New(Over, id)] == s.calls[c := New(Over, id)];
    AfterPurge(t, c, id, port);
    AfterPurged(u, c, id);
    AfterLastPop(v, c, id);
    hide PortsOf, Play, Enabled, Apply;
    Then(t, Purge(c, port, true), u, [Purged(c)] + [Pop(c)]);
    Then(u, Purged(c), v, [Pop(c)]);
    PlayOne(v, Pop(c));
  }

  lemma AfterPurge(s: State, c: CallId, id: RequestId, port: Port)
    requires c in s.calls && s.calls[c] == New(Purging({port}), id)
    ensures Enabled(s, Purge(c, port, true))
    ensures Apply(s, Purge(c, port, true))
      == s.(forwards := s.forwards - {port}, calls := s.calls[c := New(Purging({}), id)])
  {
    hide PortsOf;
    assert {port} - {port} == {};
  }

  lemma AfterPurged(s: State, c: CallId, id: RequestId)
    requires c in s.calls && s.calls[c] == New(Purging({}), id)
    ensures Enabled(s, Purged(c)) && Apply(s, Purged(c)) == s.(calls := s.calls[c := New(Ending(false), id)])
  {
    hide PortsOf;
  }

  lemma AfterLastPop(s: State, c: CallId, id: RequestId)
    requires c in s.calls && s.calls[c] == New(Ending(false), id) && id !in s.handles
    ensures Enabled(s, Pop(c))
    ensures Apply(s, Pop(c))
      == s.(lock := if s.lock == Some(c) then None else s.lock, calls := s.calls[c := New(Over, id)])
  {
    hide PortsOf;
  }

  /** The service is refused or does not answer, or its channel cannot be opened: no command is
      sent, and nothing is left. */
  lemma UnconnectedComesToItsEnd(s: State, c: CallId, id: RequestId, port: Port, answer: StartReply)
    requires CanBegin(s, c, id, port)
    ensures Play(s, Preparation(c, id, port) + (Failing(c, answer) + CleanUp(c)))
      == Some(GoneState(s, c, id, Nothing, []))
  {
    Prepares(s, c, id, port);
    var t := Play(s, Preparation(c, id, port)).value;
    PlayMore(s, Preparation(c, id, port), Failing(c, answer) + CleanUp(c));
    UnconnectedIsCleanedUp(s, t, c, id, port, answer);
  }

  function Failing(c: CallId, answer: StartReply): seq<Action> {
    if answer == Accepted then [Start(c, answer), Connect(c, false)] else [Start(c, answer)]
  }

  lemma UnconnectedIsCleanedUp(s: State, t: State, c: CallId, id: RequestId, port: Port, answer: StartReply)
    requires CanBegin(s, c, id, port)
    requires t == State(Some(c), s.handles[id := Handle(port, false, false)], s.forwards[port := Control(id)],
                        s.calls[c := New(Tracked, id)])
    ensures Play(t, Failing(c, answer) + CleanUp(c)) == Some(GoneState(s, c, id, Nothing, []))
  {
    var accepted := answer == Accepted;
    var ending := t.(handles := t.handles[id := Handle(port, accepted, false)],
                     calls := t.calls[c := New(Ending(accepted), id)]);
    FailsToConnect(t, c, id, port, answer);
    hide Play, Failing, CleanUp, Enabled, Apply, PortsOf;
    PlayMore(t, Failing(c, answer), CleanUp(c));
    CleansUpSilently(ending, c, Handle(port, accepted, false), accepted);
    assert ending.handles - {id} == s.handles && ending.forwards - {port} == s.forwards;
    assert ending.calls[c := New(Over, id)] == s.calls[c := New(Over, id)];
  }

  lemma FailsToConnect(t: State, c: CallId, id: RequestId, port: Port, answer: StartReply)
    requires InPhase(t, c, Tracked) && t.calls[c] == New(Tracked, id)
    requires Get(t.handles, id) == Some(Handle(port, false, false))
    ensures Play(t, Failing(c, answer)) == Some(t.(handles := t.handles[id := Handle(port, answer == Accepted, false)],
                 calls := t.calls[c := New(Ending(answer == Accepted), id)]))
  {
    if answer == Accepted {
      var up := t.(handles := t.handles[id := Handle(port, true, false)], calls := t.calls[c := New(ServiceUp, id)]);
      var over := up.(calls := t.calls[c := New(Ending(true), id)]);
      assert up.calls[c := New(Ending(true), id)] == over.calls;
      hide Play, PortsOf;
      Then(t, Start(c, answer), up, [Connect(c, false)]);
      PlayOne(up, Connect(c, false));
      assert [Start(c, answer), Connect(c, false)] == [Start(c, answer)] + [Connect(c, false)];
    } else {
      PlayOne(t, Start(c, answer));
      assert t.handles[id := Handle(port, false, false)] == t.handles;
    }
  }

  lemma CleansUpSilently(s: State, c: CallId, h: Handle, signal: bool)
    requires InPhase(s, c, Ending(signal)) && Get(s.handles, s.calls[c].id) == Some(h) && !h.channel
      && s.calls[c].sent == []
    ensures Play(s, CleanUp(c)) == Some(State(
      if s.lock == Some(c) then None else s.lock, s.handles - {s.calls[c].id}, s.forwards - {h.port},
      s.calls[c := s.calls[c].(phase := Over)]))
  {
    var call := s.calls[c];
    var popped := s.(handles := s.handles - {call.id}, calls := s.calls[c := call.(phase := Popped(h, signal))]);
    var told := popped.(calls := s.calls[c := call.(phase := Unforwarding(h.port))]);
    var over := s.calls[c := call.(phase := Over)];
    assert popped.calls[c := call.(phase := Unforwarding(h.port))] == told.calls;
    assert told.calls[c := call.(phase := Over)] == over;
    AfterPop(s, c, h, signal);
    AfterSilence(popped, c, h, signal);
    AfterUnforward(told, c, h.port);
    hide Play, Enabled, Apply;
    Then(s, Pop(c), popped, [SendCommand(c)] + [Unforward(c, true)]);
    Then(popped, SendCommand(c), told, [Unforward(c, true)]);
    PlayOne(told, Unforward(c, true));
    assert CleanUp(c) == [Pop(c)] + ([SendCommand(c)] + [Unforward(c, true)]);
  }

  lemma AfterSilence(s: State, c: CallId, h: Handle, signal: bool)
    requires InPhase(s, c, Popped(h, signal)) && !h.channel
    ensures Enabled(s, SendCommand(c))
    ensures Apply(s, SendCommand(c)) == s.(calls := s.calls[c := s.calls[c].(phase := Unforwarding(h.port))])
  {
    hide PortsOf;
  }
}
