/** Sessions, their control handles and their adb forwards, over every interleaving of upload
    calls (`openadb/core/acbridge_p2p.py`, `_upload_entry_batch`, `_prepare_session_locked`,
    `_remove_untracked_control_forward_safely`, `_cleanup_session_files`).

    One action is one shared-state step of one call, with the answers of adb and of the device
    as parameters.  Other programs may add and remove forwards of their own. */
module SessionLifecycle {
  import opened Wrappers

  type CallId = nat
  type RequestId = nat
  type Port = nat

  datatype Command = CANCEL | CLOSE
  /** The remote end of a forward: one request's control socket, or something else. */
  datatype Spec = Control(id: RequestId) | Foreign(tag: nat)
  datatype Handle = Handle(port: Port, started: bool, channel: bool)
  /** What a call has learnt about the end of its session. */
  datatype Evidence = Nothing | AuthenticatedSuccess | RemoteError

  datatype Phase =
    | Waiting                            // for the preparation lock
    | Preparing                          // has the lock, no request id yet
    | Named                              // request id chosen, nothing made
    | Untracked                          // adb may have made a forward and not told its port
    | Purging(ports: set<Port>)          // removing the listed ports of the request
    | Forwarded(port: Port)              // port known, handle not stored yet
    | Tracked                            // handle stored
    | ServiceUp                          // Android accepted the service
    | Reading                            // control channel open, waiting for READY
    | Uploading                          // session returned, lock released
    | Ending(signal: bool)               // about to clean up
    | Popped(handle: Handle, signal: bool)   // handle taken out of the map
    | Unforwarding(port: Port)           // only the forward is left
    | Over

  datatype Call = Call(phase: Phase, id: RequestId, evidence: Evidence, sent: seq<Command>, obeyed: bool)

  datatype State = State(lock: Option<CallId>, handles: map<RequestId, Handle>, forwards: map<Port, Spec>,
                         calls: map<CallId, Call>)

  function PortsOf(forwards: map<Port, Spec>, id: RequestId): set<Port> {
    set p | p in forwards && forwards[p] == Control(id)
  }

  // ---------------------------------------------------------------- actions

  datatype ForwardReply = Told | Unclear
  datatype StartReply = Accepted | Refused | NoAnswer
  datatype StatusReply = Ready | ErrorLine
  datatype UploadEnd = Stored | CancelledByUser | Failed(remoteText: bool) | Crashed

  datatype Action =
    | Arrive(c: CallId)
    | GiveUp(c: CallId)
    | Acquire(c: CallId)
    | FailEarly(c: CallId)
    | ChooseId(c: CallId, id: RequestId)
    | Interrupt(c: CallId)                      // a cancel check, an exception, or the deadline
    | Forward(c: CallId, made: Option<Port>, reply: ForwardReply)
    | List(c: CallId, honoured: bool)
    | Purge(c: CallId, port: Port, honoured: bool)
    | Purged(c: CallId)
    | Store(c: CallId)
    | Start(c: CallId, answer: StartReply)
    | Connect(c: CallId, accepted: bool)
    | Status(c: CallId, status: StatusReply)
    | Finish(c: CallId, outcome: UploadEnd)
    | Pop(c: CallId)
    | SendCommand(c: CallId)
    | Unforward(c: CallId, honoured: bool)
    | ForeignAdds(port: Port, tag: nat)
    | ForeignRemoves(port: Port)

  predicate InPhase(s: State, c: CallId, phase: Phase) {
    c in s.calls && s.calls[c].phase == phase
  }

  /** Besides the program's own guards: adb picks a free port, tells it correctly or not at all,
      a fresh random id is not the id of a forward adb still has, and other programs leave the
      forwards of this one alone. */
  predicate Enabled(s: State, a: Action) {
    match a
    case Arrive(c) => c !in s.calls
    case GiveUp(c) => InPhase(s, c, Waiting)
    case Acquire(c) => InPhase(s, c, Waiting) && s.lock.None?
    case FailEarly(c) => InPhase(s, c, Preparing)
    case ChooseId(c, id) => InPhase(s, c, Preparing) && id !in s.handles && PortsOf(s.forwards, id) == {}
    case Interrupt(c) => c in s.calls && s.calls[c].phase in {Named, Tracked, ServiceUp, Reading}
    case Forward(c, made, reply) =>
      InPhase(s, c, Named) && (made.Some? ==> made.value !in s.forwards) && (reply == Told ==> made.Some?)
    case List(c, _) => InPhase(s, c, Untracked)
    case Purge(c, port, _) => c in s.calls && s.calls[c].phase.Purging? && port in s.calls[c].phase.ports
    case Purged(c) => c in s.calls && s.calls[c].phase.Purging?
    case Store(c) => c in s.calls && s.calls[c].phase.Forwarded?
    case Start(c, _) => InPhase(s, c, Tracked) && s.calls[c].id in s.handles
    case Connect(c, _) => InPhase(s, c, ServiceUp) && s.calls[c].id in s.handles
    case Status(c, _) => InPhase(s, c, Reading)
    case Finish(c, _) => InPhase(s, c, Uploading)
    case Pop(c) => c in s.calls && s.calls[c].phase.Ending?
    case SendCommand(c) => c in s.calls && s.calls[c].phase.Popped?
    case Unforward(c, _) => c in s.calls && s.calls[c].phase.Unforwarding?
    case ForeignAdds(port, _) => port !in s.forwards
    case ForeignRemoves(port) => port in s.forwards && s.forwards[port].Foreign?
  }

  function Put(s: State, c: CallId, call: Call): State {
    s.(calls := s.calls[c := call])
  }

  /** The call returns or raises; the `finally` around preparation releases the lock. */
  function EndCall(s: State, c: CallId, call: Call): State {
    Put(s, c, call.(phase := Over)).(lock := if s.lock == Some(c) then None else s.lock)
  }

  function Apply(s: State, a: Action): State
    requires Enabled(s, a)
  {
    match a
    case Arrive(c) => Put(s, c, Call(Waiting, 0, Nothing, [], true))
    case GiveUp(c) => EndCall(s, c, s.calls[c])
    case Acquire(c) => Put(s, c, s.calls[c].(phase := Preparing)).(lock := Some(c))
    case FailEarly(c) => EndCall(s, c, s.calls[c])
    case ChooseId(c, id) => Put(s, c, s.calls[c].(phase := Named, id := id))
    case Interrupt(c) =>
      var call := s.calls[c];
      Put(s, c, call.(phase := Ending(call.id in s.handles && s.handles[call.id].started)))
    case Forward(c, made, reply) =>
      var call := s.calls[c];
      var s1 := if made.Some? then s.(forwards := s.forwards[made.value := Control(call.id)]) else s;
      Put(s1, c, call.(phase := if reply == Told && made.Some? then Forwarded(made.value) else Untracked))
    case List(c, honoured) =>
      var call := s.calls[c];
      var ports := if honoured then PortsOf(s.forwards, call.id) else {};
      Put(s, c, call.(phase := Purging(ports), obeyed := call.obeyed && honoured))
    case Purge(c, port, honoured) =>
      var call := s.calls[c];
      var s1 := if honoured then s.(forwards := s.forwards - {port}) else s;
      Put(s1, c, call.(phase := Purging(call.phase.ports - {port}), obeyed := call.obeyed && honoured))
    case Purged(c) =>
      // With ports left over, a removal raised and ended the purge.
      var call := s.calls[c];
      Put(s, c, call.(phase := Ending(false), obeyed := call.obeyed && call.phase.ports == {}))
    case Store(c) =>
      var call := s.calls[c];
      // A duplicate request id raises; the clean-up that follows would then pop the other handle.
      if call.id in s.handles then Put(s, c, call.(phase := Ending(s.handles[call.id].started)))
      else Put(s, c, call.(phase := Tracked)).(handles := s.handles[call.id := Handle(call.phase.port, false, false)])
    case Start(c, answer) =>
      var call := s.calls[c];
      if answer != Accepted then Put(s, c, call.(phase := Ending(false)))
      else Put(s, c, call.(phase := ServiceUp)).(handles := s.handles[call.id := s.handles[call.id].(started := true)])
    case Connect(c, accepted) =>
      var call := s.calls[c];
      if !accepted then Put(s, c, call.(phase := Ending(s.handles[call.id].started)))
      else Put(s, c, call.(phase := Reading)).(handles := s.handles[call.id := s.handles[call.id].(channel := true)])
    case Status(c, status) =>
      var call := s.calls[c];
      (match status
       case Ready => Put(s, c, call.(phase := Uploading)).(lock := if s.lock == Some(c) then None else s.lock)
       case ErrorLine => Put(s, c, call.(phase := Ending(false), evidence := RemoteError)))
    case Finish(c, outcome) =>
      var call := s.calls[c];
      (match outcome
       case Stored => Put(s, c, call.(phase := Ending(false), evidence := AuthenticatedSuccess))
       case Failed(true) => Put(s, c, call.(phase := Ending(false), evidence := RemoteError))
       case _ => Put(s, c, call.(phase := Ending(true))))
    case Pop(c) =>
      var call := s.calls[c];
      if call.id in s.handles then
        Put(s, c, call.(phase := Popped(s.handles[call.id], call.phase.signal))).(handles := s.handles - {call.id})
      else EndCall(s, c, call)
    case SendCommand(c) =>
      var call := s.calls[c];
      var command := if call.phase.signal then CANCEL else CLOSE;
      Put(s, c, call.(phase := Unforwarding(call.phase.handle.port),
                      sent := if call.phase.handle.channel then call.sent + [command] else call.sent))
    case Unforward(c, honoured) =>
      var call := s.calls[c];
      var s1 := if honoured then s.(forwards := s.forwards - {call.phase.port}) else s;
      EndCall(s1, c, call.(obeyed := call.obeyed && honoured))
    case ForeignAdds(port, tag) => s.(forwards := s.forwards[port := Foreign(tag)])
    case ForeignRemoves(port) => s.(forwards := s.forwards - {port})
  }

  // ---------------------------------------------------------------- the invariant

  /** The request id of this call means something now. */
  predicate Live(call: Call) {
    !call.phase.Waiting? && !call.phase.Preparing? && !call.phase.Over?
  }

  predicate Locked(phase: Phase) {
    phase in {Preparing, Named, Untracked, Tracked, ServiceUp, Reading} || phase.Purging? || phase.Forwarded?
  }

  /** What one call sees: whether it has the lock, its handle in the map, and its ports. */
  ghost predicate View(call: Call, hasLock: bool, handle: Option<Handle>, ports: set<Port>) {
    && (Locked(call.phase) ==> hasLock)
    && (call.phase in {Waiting, Uploading, Over} ==> !hasLock)
    && |call.sent| <= 1
    && (call.sent == [CLOSE] ==> call.evidence != Nothing)
    && (call.sent == [CANCEL] ==> call.evidence == Nothing)
    && match call.phase
       case Waiting | Preparing => call.obeyed && call.sent == [] && call.evidence == Nothing
       case Named => handle.None? && ports == {} && call.sent == [] && call.evidence == Nothing
       case Untracked => handle.None? && call.sent == [] && call.evidence == Nothing
       case Purging(mine) => handle.None? && mine <= ports && (call.obeyed ==> mine == ports)
                             && call.sent == [] && call.evidence == Nothing
       case Forwarded(p) => handle.None? && ports == {p} && call.sent == [] && call.evidence == Nothing
       case Tracked => handle.Some? && ports == {handle.value.port} && !handle.value.started && !handle.value.channel
                       && call.sent == [] && call.evidence == Nothing
       case ServiceUp => handle.Some? && ports == {handle.value.port} && handle.value.started && !handle.value.channel
                         && call.sent == [] && call.evidence == Nothing
       case Reading | Uploading => handle.Some? && ports == {handle.value.port} && handle.value.started
         && handle.value.channel
                                   && call.sent == [] && call.evidence == Nothing
       case Ending(signal) =>
         call.sent == []
         && (handle.Some? ==>
             ports == {handle.value.port} && (handle.value.channel ==> signal == (call.evidence == Nothing)))
         && (call.evidence != Nothing ==> handle.Some? && handle.value.channel)
         && (handle.None? ==> hasLock && (call.obeyed ==> ports == {}))
       case Popped(h, signal) =>
         call.sent == [] && handle.None? && ports == {h.port} && (h.channel ==> signal == (call.evidence == Nothing))
         && (call.evidence != Nothing ==> h.channel)
       case Unforwarding(p) => handle.None? && ports == {p} && (call.sent == [CLOSE] <==> call.evidence != Nothing)
       case Over => call.sent == [CLOSE] <==> call.evidence != Nothing
  }

  ghost predicate CallOk(s: State, c: CallId)
    requires c in s.calls
  {
    View(s.calls[c], s.lock == Some(c), Get(s.handles, s.calls[c].id), PortsOf(s.forwards, s.calls[c].id))
  }

  ghost predicate AllOk(s: State) {
    forall c :: c in s.calls ==> CallOk(s, c)
  }

  /** Two live calls never share a request id. */
  ghost predicate Distinct(calls: map<CallId, Call>) {
    forall c, d :: c in calls && d in calls && c != d && Live(calls[c]) && Live(calls[d]) ==> calls[c].id != calls[d].id
  }

  ghost predicate LockIsHeld(s: State) {
    s.lock.Some? ==> s.lock.value in s.calls
  }

  ghost predicate Inv(s: State) {
    AllOk(s) && Distinct(s.calls) && LockIsHeld(s)
  }

  // ---------------------------------------------------------------- one step

  /** `t` differs from `s` only in what belongs to the call `c`. */
  ghost predicate OnlyCall(s: State, t: State, c: CallId) {
    && c in t.calls && t.calls.Keys == s.calls.Keys + {c}
    && (forall d :: d in s.calls && d != c ==> t.calls[d] == s.calls[d])
    && (forall id :: id != t.calls[c].id ==>
         Get(t.handles, id) == Get(s.handles, id) && PortsOf(t.forwards, id) == PortsOf(s.forwards, id))
    && (forall d :: d != c ==> (t.lock == Some(d) <==> s.lock == Some(d)))
  }

  lemma PortAdded(forwards: map<Port, Spec>, port: Port, spec: Spec, id: RequestId)
    requires port !in forwards
    ensures PortsOf(forwards[port := spec], id) == PortsOf(forwards, id) + if spec == Control(id) then {port} else {}
  {
  }

  lemma PortRemoved(forwards: map<Port, Spec>, port: Port, id: RequestId)
    ensures PortsOf(forwards - {port}, id) == PortsOf(forwards, id) - {port}
  {
  }

  lemma OthersKeepTheirView(s: State, t: State, c: CallId)
    requires Inv(s) && OnlyCall(s, t, c) && CallOk(t, c)
    requires forall d :: d in s.calls && d != c && Live(s.calls[d]) && Live(t.calls[c]) ==>
      s.calls[d].id != t.calls[c].id
    requires c in s.calls && Live(s.calls[c]) ==> s.calls[c].id == t.calls[c].id
    requires (c in s.calls && Live(s.calls[c])) || Live(t.calls[c])
      || (t.handles == s.handles && t.forwards == s.forwards)
    ensures Inv(t)
  {
    hide View, Get, PortsOf;
    forall d | d in t.calls ensures CallOk(t, d) {
      if d != c {
        assert CallOk(s, d);
        if t.calls[d].id == t.calls[c].id && !(t.handles == s.handles && t.forwards == s.forwards) {
          IdleViewIgnoresTheRest(t.calls[d], t.lock == Some(d), Get(s.handles, t.calls[d].id),
            PortsOf(s.forwards, t.calls[d].id),
                                 Get(t.handles, t.calls[d].id), PortsOf(t.forwards, t.calls[d].id));
        }
      }
    }
  }

  lemma IdleViewIgnoresTheRest(call: Call, hasLock: bool, h: Option<Handle>, p: set<Port>, h': Option<Handle>,
                               p': set<Port>)
    requires !Live(call) && View(call, hasLock, h, p)
    ensures View(call, hasLock, h', p')
  {
  }

  /** A step that leaves the maps alone. */
  lemma MapsUntouched(s: State, t: State, c: CallId)
    requires Inv(s) && c in s.calls && c in t.calls && t.calls == s.calls[c := t.calls[c]]
    requires t.handles == s.handles && t.forwards == s.forwards
    requires forall d :: d != c ==> (t.lock == Some(d) <==> s.lock == Some(d))
    requires t.calls[c].id == s.calls[c].id && (Live(t.calls[c]) ==> Live(s.calls[c]))
    requires CallOk(t, c)
    ensures Inv(t)
  {
    OthersKeepTheirView(s, t, c);
  }

  lemma HandleStepKeepsInv(s: State, t: State, c: CallId)
    requires Inv(s) && c in s.calls && Live(s.calls[c]) && c in t.calls && t.calls == s.calls[c := t.calls[c]]
    requires t.calls[c].id == s.calls[c].id && t.forwards == s.forwards
    requires t.lock == s.lock
    requires forall id :: id != s.calls[c].id ==> Get(t.handles, id) == Get(s.handles, id)
    requires CallOk(t, c)
    ensures Inv(t)
  {
    OthersKeepTheirView(s, t, c);
  }

  lemma ForwardStepKeepsInv(s: State, t: State, c: CallId)
    requires Inv(s) && c in s.calls && Live(s.calls[c]) && c in t.calls && t.calls == s.calls[c := t.calls[c]]
    requires t.calls[c].id == s.calls[c].id && t.handles == s.handles
    requires forall d :: d != c ==> (t.lock == Some(d) <==> s.lock == Some(d))
    requires forall id :: id != s.calls[c].id ==> PortsOf(t.forwards, id) == PortsOf(s.forwards, id)
    requires CallOk(t, c)
    ensures Inv(t)
  {
    OthersKeepTheirView(s, t, c);
  }

  lemma ForeignStepKeepsInv(s: State, t: State)
    requires Inv(s) && t == s.(forwards := t.forwards)
    requires forall id :: PortsOf(t.forwards, id) == PortsOf(s.forwards, id)
    ensures Inv(t)
  {
    hide View, Get, PortsOf;
    forall d | d in t.calls ensures CallOk(t, d) {
      assert CallOk(s, d);
    }
  }

  /** A chosen id belongs to no live call: those with a handle are in the map, those being
      cleaned up still have their forward, and the others would hold the lock. */
  lemma ChosenIdIsFree(s: State, c: CallId, id: RequestId, d: CallId)
    requires Inv(s) && InPhase(s, c, Preparing) && id !in s.handles && PortsOf(s.forwards, id) == {}
    requires d in s.calls && d != c && Live(s.calls[d])
    ensures s.calls[d].id != id
  {
    assert CallOk(s, c) && CallOk(s, d);
  }

  /** No step breaks the invariant. */
  lemma StepKeepsInv(s: State, a: Action)
    requires Inv(s) && Enabled(s, a)
    ensures Inv(Apply(s, a))
  {
    hide AllOk, Distinct;
    var t := Apply(s, a);
    match a
    case Arrive(c) => ArriveKeepsInv(s, c);
    case ChooseId(c, id) => ChooseIdKeepsInv(s, c, id);
    case Forward(c, made, reply) => ForwardKeepsInv(s, c, made, reply);
    case Purge(c, port, honoured) => PurgeKeepsInv(s, c, port, honoured);
    case Store(c) => StoreKeepsInv(s, c);
    case Start(c, answer) => StartKeepsInv(s, c, answer);
    case Connect(c, accepted) => ConnectKeepsInv(s, c, accepted);
    case Pop(c) => PopKeepsInv(s, c);
    case Unforward(c, honoured) => UnforwardKeepsInv(s, c, honoured);
    case ForeignAdds(port, tag) =>
      forall id { PortAdded(s.forwards, port, Foreign(tag), id); }
      ForeignStepKeepsInv(s, t);
    case ForeignRemoves(port) =>
      forall id { PortRemoved(s.forwards, port, id); }
      forall id ensures port !in PortsOf(s.forwards, id) {}
      ForeignStepKeepsInv(s, t);
    case GiveUp(c) => GiveUpKeepsInv(s, c);
    case Acquire(c) => AcquireKeepsInv(s, c);
    case FailEarly(c) => FailEarlyKeepsInv(s, c);
    case Interrupt(c) => InterruptKeepsInv(s, c);
    case List(c, honoured) => ListKeepsInv(s, c, honoured);
    case Purged(c) => PurgedKeepsInv(s, c);
    case Status(c, status) => StatusKeepsInv(s, c, status);
    case Finish(c, outcome) => FinishKeepsInv(s, c, outcome);
    case SendCommand(c) => SendCommandKeepsInv(s, c);
  }

  lemma GiveUpKeepsInv(s: State, c: CallId)
    requires Inv(s) && Enabled(s, GiveUp(c))
    ensures Inv(Apply(s, GiveUp(c)))
  {
    hide AllOk, Distinct, PortsOf;
    UseCallOk(s, c);
    MapsUntouched(s, Apply(s, GiveUp(c)), c);
  }

  lemma AcquireKeepsInv(s: State, c: CallId)
    requires Inv(s) && Enabled(s, Acquire(c))
    ensures Inv(Apply(s, Acquire(c)))
  {
    hide AllOk, Distinct, PortsOf;
    UseCallOk(s, c);
    MapsUntouched(s, Apply(s, Acquire(c)), c);
  }

  lemma FailEarlyKeepsInv(s: State, c: CallId)
    requires Inv(s) && Enabled(s, FailEarly(c))
    ensures Inv(Apply(s, FailEarly(c)))
  {
    hide AllOk, Distinct, PortsOf;
    UseCallOk(s, c);
    MapsUntouched(s, Apply(s, FailEarly(c)), c);
  }

  lemma InterruptKeepsInv(s: State, c: CallId)
    requires Inv(s) && Enabled(s, Interrupt(c))
    ensures Inv(Apply(s, Interrupt(c)))
  {
    hide AllOk, Distinct, PortsOf;
    UseCallOk(s, c);
    MapsUntouched(s, Apply(s, Interrupt(c)), c);
  }

  lemma ListKeepsInv(s: State, c: CallId, honoured: bool)
    requires Inv(s) && Enabled(s, List(c, honoured))
    ensures Inv(Apply(s, List(c, honoured)))
  {
    hide AllOk, Distinct, PortsOf;
    UseCallOk(s, c);
    MapsUntouched(s, Apply(s, List(c, honoured)), c);
  }

  lemma PurgedKeepsInv(s: State, c: CallId)
    requires Inv(s) && Enabled(s, Purged(c))
    ensures Inv(Apply(s, Purged(c)))
  {
    hide AllOk, Distinct, PortsOf;
    UseCallOk(s, c);
    MapsUntouched(s, Apply(s, Purged(c)), c);
  }

  lemma StatusKeepsInv(s: State, c: CallId, status: StatusReply)
    requires Inv(s) && Enabled(s, Status(c, status))
    ensures Inv(Apply(s, Status(c, status)))
  {
    hide AllOk, Distinct, PortsOf;
    UseCallOk(s, c);
    MapsUntouched(s, Apply(s, Status(c, status)), c);
  }

  lemma FinishKeepsInv(s: State, c: CallId, outcome: UploadEnd)
    requires Inv(s) && Enabled(s, Finish(c, outcome))
    ensures Inv(Apply(s, Finish(c, outcome)))
  {
    hide AllOk, Distinct, PortsOf;
    UseCallOk(s, c);
    MapsUntouched(s, Apply(s, Finish(c, outcome)), c);
  }

  lemma SendCommandKeepsInv(s: State, c: CallId)
    requires Inv(s) && Enabled(s, SendCommand(c))
    ensures Inv(Apply(s, SendCommand(c)))
  {
    hide AllOk, Distinct, PortsOf;
    UseCallOk(s, c);
    assert forall command: Command :: s.calls[c].sent + [command] == [command];
    MapsUntouched(s, Apply(s, SendCommand(c)), c);
  }

  lemma UseCallOk(s: State, c: CallId)
    requires AllOk(s) && c in s.calls
    ensures CallOk(s, c)
  {
  }

  lemma ArriveKeepsInv(s: State, c: CallId)
    requires Inv(s) && c !in s.calls
    ensures Inv(Apply(s, Arrive(c)))
  {
    OthersKeepTheirView(s, Apply(s, Arrive(c)), c);
  }

  lemma ChooseIdKeepsInv(s: State, c: CallId, id: RequestId)
    requires Inv(s) && Enabled(s, ChooseId(c, id))
    ensures Inv(Apply(s, ChooseId(c, id)))
  {
    var t := Apply(s, ChooseId(c, id));
    assert CallOk(s, c);
    forall d | d in s.calls && d != c && Live(s.calls[d]) ensures s.calls[d].id != id {
      ChosenIdIsFree(s, c, id, d);
    }
    OthersKeepTheirView(s, t, c);
  }

  lemma ForwardKeepsInv(s: State, c: CallId, made: Option<Port>, reply: ForwardReply)
    requires Inv(s) && Enabled(s, Forward(c, made, reply))
    ensures Inv(Apply(s, Forward(c, made, reply)))
  {
    var t := Apply(s, Forward(c, made, reply));
    assert CallOk(s, c);
    if made.Some? {
      forall id
        ensures PortsOf(t.forwards, id) == PortsOf(s.forwards, id) + if id == s.calls[c].id then {made.value} else {}
      {
        PortAdded(s.forwards, made.value, Control(s.calls[c].id), id);
      }
    }
    hide PortsOf;
    ForwardStepKeepsInv(s, t, c);
  }

  lemma PurgeKeepsInv(s: State, c: CallId, port: Port, honoured: bool)
    requires Inv(s) && Enabled(s, Purge(c, port, honoured))
    ensures Inv(Apply(s, Purge(c, port, honoured)))
  {
    var t := Apply(s, Purge(c, port, honoured));
    OwnPort(s, c, port);
    RemovedOnly(s.forwards, port, s.calls[c].id);
    hide AllOk, Distinct, PortsOf;
    UseCallOk(s, c);
    ForwardStepKeepsInv(s, t, c);
  }

  lemma OwnPort(s: State, c: CallId, port: Port)
    requires Inv(s) && c in s.calls
      && (s.calls[c].phase == Unforwarding(port) || (s.calls[c].phase.Purging? && port in s.calls[c].phase.ports))
    ensures port in PortsOf(s.forwards, s.calls[c].id)
  {
    assert CallOk(s, c);
  }

  lemma RemovedOnly(forwards: map<Port, Spec>, port: Port, id: RequestId)
    requires port in PortsOf(forwards, id)
    ensures forall other ::
      PortsOf(forwards - {port}, other) == PortsOf(forwards, other) - if other == id then {port} else {}
  {
  }

  lemma StoreKeepsInv(s: State, c: CallId)
    requires Inv(s) && Enabled(s, Store(c))
    ensures Inv(Apply(s, Store(c)))
  {
    hide AllOk, Distinct, PortsOf;
    UseCallOk(s, c);
    HandleStepKeepsInv(s, Apply(s, Store(c)), c);
  }

  lemma StartKeepsInv(s: State, c: CallId, answer: StartReply)
    requires Inv(s) && Enabled(s, Start(c, answer))
    ensures Inv(Apply(s, Start(c, answer)))
  {
    hide AllOk, Distinct, PortsOf;
    UseCallOk(s, c);
    HandleStepKeepsInv(s, Apply(s, Start(c, answer)), c);
  }

  lemma ConnectKeepsInv(s: State, c: CallId, accepted: bool)
    requires Inv(s) && Enabled(s, Connect(c, accepted))
    ensures Inv(Apply(s, Connect(c, accepted)))
  {
    hide AllOk, Distinct, PortsOf;
    UseCallOk(s, c);
    HandleStepKeepsInv(s, Apply(s, Connect(c, accepted)), c);
  }

  lemma PopKeepsInv(s: State, c: CallId)
    requires Inv(s) && Enabled(s, Pop(c))
    ensures Inv(Apply(s, Pop(c)))
  {
    hide AllOk, Distinct, PortsOf;
    UseCallOk(s, c);
    if s.calls[c].id in s.handles {
      HandleStepKeepsInv(s, Apply(s, Pop(c)), c);
    } else {
      MapsUntouched(s, Apply(s, Pop(c)), c);
    }
  }

  lemma UnforwardKeepsInv(s: State, c: CallId, honoured: bool)
    requires Inv(s) && Enabled(s, Unforward(c, honoured))
    ensures Inv(Apply(s, Unforward(c, honoured)))
  {
    var port := s.calls[c].phase.port;
    OwnPort(s, c, port);
    RemovedOnly(s.forwards, port, s.calls[c].id);
    hide AllOk, Distinct, PortsOf;
    UseCallOk(s, c);
    ForwardStepKeepsInv(s, Apply(s, Unforward(c, honoured)), c);
  }

  // ---------------------------------------------------------------- runs

  /** A run: the states of any interleaving, from no calls and no forwards of this program. */
  ghost predicate Run(states: seq<State>, actions: seq<Action>) {
    && |states| == |actions| + 1
    && states[0].lock.None? && states[0].handles == map[] && states[0].calls == map[]
    && (forall port :: port in states[0].forwards ==> states[0].forwards[port].Foreign?)
    && forall i :: 0 <= i < |actions| ==>
        Enabled(states[i], actions[i]) && states[i + 1] == Apply(states[i], actions[i])
  }

  lemma {:induction false} RunKeepsInv(states: seq<State>, actions: seq<Action>, i: nat)
    requires Run(states, actions) && i < |states|
    ensures Inv(states[i])
  {
    if i > 0 {
      RunKeepsInv(states, actions, i - 1);
      StepKeepsInv(states[i - 1], actions[i - 1]);
    }
  }

  lemma EndLeavesNothing(s: State, a: Action, c: CallId)
    requires Inv(s) && Enabled(s, a) && c in s.calls && Live(s.calls[c]) && InPhase(Apply(s, a), c, Over)
    ensures s.calls[c].id !in Apply(s, a).handles
    ensures Apply(s, a).calls[c].obeyed ==> PortsOf(Apply(s, a).forwards, s.calls[c].id) == {}
  {
    hide AllOk, Distinct, PortsOf;
    UseCallOk(s, c);
    if a.Unforward? && a.c == c {
      OwnPort(s, c, s.calls[c].phase.port);
      RemovedOnly(s.forwards, s.calls[c].phase.port, s.calls[c].id);
    }
  }

  /** Whatever a clean-up removes is its own forward, and no other live session uses that port. */
  lemma RemovalHitsOnlyItsOwn(states: seq<State>, actions: seq<Action>, i: nat, port: Port, d: CallId)
    requires Run(states, actions) && i < |actions|
    requires (actions[i].Purge? && actions[i].port == port)
      || (actions[i].Unforward? && states[i].calls[actions[i].c].phase.port == port)
    ensures port in states[i].forwards && states[i].forwards[port] == Control(states[i].calls[actions[i].c].id)
    ensures d in states[i].calls && d != actions[i].c && Live(states[i].calls[d]) ==>
      states[i].forwards[port] != Control(states[i].calls[d].id)
      && (states[i].calls[d].id in states[i].handles ==> states[i].handles[states[i].calls[d].id].port != port)
  {
    RunKeepsInv(states, actions, i);
    OwnPort(states[i], actions[i].c, port);
    if d in states[i].calls && Live(states[i].calls[d]) && states[i].calls[d].id in states[i].handles {
      HandlePortIsForwarded(states[i], d);
    }
  }

  lemma HandlePortIsForwarded(s: State, d: CallId)
    requires Inv(s) && d in s.calls && Live(s.calls[d]) && s.calls[d].id in s.handles
    ensures s.handles[s.calls[d].id].port in PortsOf(s.forwards, s.calls[d].id)
  {
    assert CallOk(s, d);
  }

  /** The check for a duplicate id never fires when a handle is stored. */
  lemma DuplicateIdIsUnreachable(states: seq<State>, actions: seq<Action>, i: nat)
    requires Run(states, actions) && i < |actions| && actions[i].Store?
    ensures states[i].calls[actions[i].c].id !in states[i].handles
  {
    RunKeepsInv(states, actions, i);
    UseCallOk(states[i], actions[i].c);
  }

  /** Preparation is serialised. */
  lemma OnePreparation(states: seq<State>, actions: seq<Action>, i: nat, c: CallId, d: CallId)
    requires Run(states, actions) && i < |states| && c in states[i].calls && d in states[i].calls
    requires Locked(states[i].calls[c].phase) && Locked(states[i].calls[d].phase)
    ensures c == d
  {
    RunKeepsInv(states, actions, i);
    UseCallOk(states[i], c);
    UseCallOk(states[i], d);
  }

  // ---------------------------------------------------------------- what the actions of a run say

  /** The call learns of an authenticated success or of an ERROR of the device. */
  predicate EndsWell(a: Action, c: CallId) {
    a == Finish(c, Stored) || a == Finish(c, Failed(true)) || a == Status(c, ErrorLine)
  }

  predicate OpensChannel(a: Action, c: CallId) {
    a == Connect(c, true)
  }

  /** adb did not do what this call asked it, or a purge broke off before all ports were gone. */
  predicate Disobeys(s: State, a: Action, c: CallId) {
    || (a.List? && a.c == c && !a.honoured) || (a.Purge? && a.c == c && !a.honoured)
    || (a.Unforward? && a.c == c && !a.honoured)
    || (a.Purged? && a.c == c && c in s.calls && s.calls[c].phase.Purging? && s.calls[c].phase.ports != {})
  }

  ghost predicate HasEndedWell(actions: seq<Action>, i: nat, c: CallId) {
    exists j :: 0 <= j < i && j < |actions| && EndsWell(actions[j], c)
  }

  ghost predicate HasChannel(actions: seq<Action>, i: nat, c: CallId) {
    exists j :: 0 <= j < i && j < |actions| && OpensChannel(actions[j], c)
  }

  ghost predicate WasDisobeyed(states: seq<State>, actions: seq<Action>, i: nat, c: CallId) {
    exists j :: 0 <= j < i && j < |actions| && j < |states| && Disobeys(states[j], actions[j], c)
  }

  /** How far a call has got tells whether a channel was opened, and whether its command is out. */
  ghost predicate ChannelFits(call: Call, handle: Option<Handle>, linked: bool) {
    match call.phase
    case Reading | Uploading => linked
    case Ending(_) => if handle.Some? then handle.value.channel <==> linked else !linked
    case Popped(h, _) => h.channel <==> linked
    case Unforwarding(_) => |call.sent| == 1 <==> linked
    case Over => |call.sent| == 1 <==> linked
    case _ => !linked
  }

  /** The tables agree with what the actions so far were. */
  ghost predicate Recorded(s: State, c: CallId, ended: bool, linked: bool, disobeyed: bool) {
    if c in s.calls then
      && (s.calls[c].evidence != Nothing <==> ended) && (s.calls[c].obeyed <==> !disobeyed)
      && ChannelFits(s.calls[c], Get(s.handles, s.calls[c].id), linked)
    else !ended && !linked && !disobeyed
  }

  lemma StepIsRecorded(s: State, a: Action, c: CallId, ended: bool, linked: bool, disobeyed: bool)
    requires Inv(s) && Enabled(s, a) && Recorded(s, c, ended, linked, disobeyed)
    ensures Recorded(Apply(s, a), c, ended || EndsWell(a, c), linked || OpensChannel(a, c),
      disobeyed || Disobeys(s, a, c))
  {
    if !Concerns(a, c) {
      NothingSaid(s, a, c);
      if c in s.calls {
        OthersUntouched(s, a, c);
        HandleOfOthers(s, a, c);
      } else {
        StaysUnknown(s, a, c);
      }
      hide Apply, Enabled, EndsWell, OpensChannel, Disobeys, Inv;
    } else {
      EvidenceIsRecorded(s, a, ended);
      ObedienceIsRecorded(s, a, disobeyed);
      ChannelIsRecorded(s, a, linked);
      hide Apply, Enabled, EndsWell, OpensChannel, Disobeys, Inv, ChannelFits;
    }
  }

  predicate OfACall(a: Action) {
    !a.ForeignAdds? && !a.ForeignRemoves?
  }

  predicate Concerns(a: Action, c: CallId) {
    OfACall(a) && a.c == c
  }

  lemma NothingSaid(s: State, a: Action, c: CallId)
    requires !Concerns(a, c)
    ensures !EndsWell(a, c) && !OpensChannel(a, c) && !Disobeys(s, a, c)
  {
  }

  lemma StaysUnknown(s: State, a: Action, c: CallId)
    requires Enabled(s, a) && c !in s.calls && !Concerns(a, c)
    ensures c !in Apply(s, a).calls
  {
  }

  /** A step of another call leaves the handle of a live call alone. */
  lemma HandleOfOthers(s: State, a: Action, c: CallId)
    requires Inv(s) && Enabled(s, a) && c in s.calls && !Concerns(a, c)
    ensures Live(s.calls[c]) ==> Get(Apply(s, a).handles, s.calls[c].id) == Get(s.handles, s.calls[c].id)
  {
    hide AllOk, View, PortsOf;
  }

  lemma EvidenceIsRecorded(s: State, a: Action, ended: bool)
    requires Enabled(s, a) && OfACall(a)
    requires if a.c in s.calls then s.calls[a.c].evidence != Nothing <==> ended else !ended
    ensures a.c in Apply(s, a).calls
    ensures Apply(s, a).calls[a.c].evidence != Nothing <==> ended || EndsWell(a, a.c)
  {
    hide PortsOf;
  }

  lemma ObedienceIsRecorded(s: State, a: Action, disobeyed: bool)
    requires Enabled(s, a) && OfACall(a)
    requires if a.c in s.calls then s.calls[a.c].obeyed <==> !disobeyed else !disobeyed
    ensures a.c in Apply(s, a).calls
    ensures Apply(s, a).calls[a.c].obeyed <==> !(disobeyed || Disobeys(s, a, a.c))
  {
    hide PortsOf;
  }

  predicate IsEarly(a: Action) {
    a.Arrive? || a.GiveUp? || a.Acquire? || a.FailEarly? || a.ChooseId? || a.Forward? || a.List? || a.Purge?
      || a.Purged?
  }

  predicate IsMiddle(a: Action) {
    a.Store? || a.Start? || a.Connect? || a.Interrupt?
  }

  lemma EarlyChannelIsRecorded(s: State, a: Action, linked: bool)
    requires Inv(s) && Enabled(s, a) && OfACall(a)
    requires IsEarly(a)
    requires if a.c in s.calls then ChannelFits(s.calls[a.c], Get(s.handles, s.calls[a.c].id), linked) else !linked
    ensures var t := Apply(s, a);
      a.c in t.calls && ChannelFits(t.calls[a.c], Get(t.handles, t.calls[a.c].id), linked || OpensChannel(a, a.c))
  {
    if a.c in s.calls {
      UseCallOk(s, a.c);
    }
    hide AllOk, Distinct, PortsOf;
  }

  lemma MiddleChannelIsRecorded(s: State, a: Action, linked: bool)
    requires Inv(s) && Enabled(s, a) && OfACall(a)
    requires IsMiddle(a)
    requires if a.c in s.calls then ChannelFits(s.calls[a.c], Get(s.handles, s.calls[a.c].id), linked) else !linked
    ensures var t := Apply(s, a);
      a.c in t.calls && ChannelFits(t.calls[a.c], Get(t.handles, t.calls[a.c].id), linked || OpensChannel(a, a.c))
  {
    if a.c in s.calls {
      UseCallOk(s, a.c);
    }
    hide AllOk, Distinct, PortsOf;
  }

  lemma LateChannelIsRecorded(s: State, a: Action, linked: bool)
    requires Inv(s) && Enabled(s, a) && OfACall(a)
    requires !IsEarly(a) && !IsMiddle(a)
    requires if a.c in s.calls then ChannelFits(s.calls[a.c], Get(s.handles, s.calls[a.c].id), linked) else !linked
    ensures var t := Apply(s, a);
      a.c in t.calls && ChannelFits(t.calls[a.c], Get(t.handles, t.calls[a.c].id), linked || OpensChannel(a, a.c))
  {
    if a.c in s.calls {
      UseCallOk(s, a.c);
    }
    hide AllOk, Distinct, PortsOf;
  }

  lemma ChannelIsRecorded(s: State, a: Action, linked: bool)
    requires Inv(s) && Enabled(s, a) && OfACall(a)
    requires if a.c in s.calls then ChannelFits(s.calls[a.c], Get(s.handles, s.calls[a.c].id), linked) else !linked
    ensures var t := Apply(s, a);
      a.c in t.calls && ChannelFits(t.calls[a.c], Get(t.handles, t.calls[a.c].id), linked || OpensChannel(a, a.c))
  {
    hide Inv, Enabled, Apply, OpensChannel, ChannelFits;
    if IsEarly(a) {
      EarlyChannelIsRecorded(s, a, linked);
    } else if IsMiddle(a) {
      MiddleChannelIsRecorded(s, a, linked);
    } else {
      LateChannelIsRecorded(s, a, linked);
    }
  }

  lemma {:induction false} RunIsRecorded(states: seq<State>, actions: seq<Action>, i: nat, c: CallId)
    requires Run(states, actions) && i < |states|
    ensures Recorded(states[i], c, HasEndedWell(actions, i, c), HasChannel(actions, i, c),
      WasDisobeyed(states, actions, i, c))
  {
    if i > 0 {
      RunKeepsInv(states, actions, i - 1);
      RunIsRecorded(states, actions, i - 1, c);
      StepIsRecorded(states[i - 1], actions[i - 1], c, HasEndedWell(actions, i - 1, c), HasChannel(actions, i - 1, c),
                     WasDisobeyed(states, actions, i - 1, c));
      hide Recorded, Enabled, Apply, EndsWell, OpensChannel, Disobeys, Inv;
      assert HasEndedWell(actions, i, c) <==> HasEndedWell(actions, i - 1, c) || EndsWell(actions[i - 1], c);
      assert HasChannel(actions, i, c) <==> HasChannel(actions, i - 1, c) || OpensChannel(actions[i - 1], c);
      assert WasDisobeyed(states, actions, i, c)
        <==> WasDisobeyed(states, actions, i - 1, c) || Disobeys(states[i - 1], actions[i - 1], c);
    }
  }

  /** A call that is over sent exactly one command if it had opened a channel, and none otherwise:
      CLOSE if and only if its upload was stored, failed with the device's own text, or an ERROR
      line came instead of READY. */
  lemma TerminalCommand(states: seq<State>, actions: seq<Action>, i: nat, c: CallId)
    requires Run(states, actions) && i < |states| && InPhase(states[i], c, Over)
    ensures states[i].calls[c].sent ==
      if !HasChannel(actions, i, c) then []
      else if HasEndedWell(actions, i, c) then [CLOSE] else [CANCEL]
  {
    RunKeepsInv(states, actions, i);
    RunIsRecorded(states, actions, i, c);
    UseCallOk(states[i], c);
    var sent := states[i].calls[c].sent;
    assert |sent| == 1 ==> sent == [sent[0]];
    if sent != [] {
      match sent[0]
      case CANCEL =>
      case CLOSE =>
    }
  }

  /** Before it is over it has sent one command at most. */
  lemma OneCommand(states: seq<State>, actions: seq<Action>, i: nat, c: CallId)
    requires Run(states, actions) && i < |states| && c in states[i].calls
    ensures |states[i].calls[c].sent| <= 1
  {
    RunKeepsInv(states, actions, i);
    UseCallOk(states[i], c);
  }

  /** When a call ends, on whichever path, the map holds no handle for its request; and if adb
      did what this call asked it and no purge broke off, no forward for the request is left. */
  lemma EndedCallLeavesNothing(states: seq<State>, actions: seq<Action>, i: nat, c: CallId)
    requires Run(states, actions) && i < |actions|
    requires c in states[i].calls && Live(states[i].calls[c])
    requires InPhase(states[i + 1], c, Over)
    ensures var id := states[i].calls[c].id;
      && id !in states[i + 1].handles
      && (!WasDisobeyed(states, actions, i + 1, c) ==> PortsOf(states[i + 1].forwards, id) == {})
  {
    RunKeepsInv(states, actions, i);
    RunIsRecorded(states, actions, i + 1, c);
    EndLeavesNothing(states[i], actions[i], c);
  }

  // ---------------------------------------------------------------- nothing is left over

  ghost predicate OwnsHandle(calls: map<CallId, Call>, c: CallId, id: RequestId) {
    c in calls && calls[c].id == id && Live(calls[c])
  }

  ghost predicate AnswersFor(calls: map<CallId, Call>, c: CallId, id: RequestId) {
    c in calls && calls[c].id == id && (Live(calls[c]) || !calls[c].obeyed)
  }

  /** Every handle has a live call; every forward of ours has one, or one that adb disobeyed. */
  ghost predicate Owned(s: State) {
    && (forall id :: id in s.handles ==> exists c :: OwnsHandle(s.calls, c, id))
    && (forall port :: port in s.forwards && s.forwards[port].Control? ==>
        exists c :: AnswersFor(s.calls, c, s.forwards[port].id))
  }

  /** A live call keeps its id until it ends, and an ended call does not change any more. */
  lemma CallsAfter(s: State, a: Action, c: CallId)
    requires Enabled(s, a) && c in s.calls && (Live(s.calls[c]) || s.calls[c].phase.Over?)
    ensures c in Apply(s, a).calls && Apply(s, a).calls[c].id == s.calls[c].id
    ensures s.calls[c].phase.Over? ==> Apply(s, a).calls[c] == s.calls[c]
    ensures Live(Apply(s, a).calls[c]) || Apply(s, a).calls[c].phase.Over?
  {
    hide PortsOf;
    if a.ForeignAdds? || a.ForeignRemoves? || a.c != c {
      OthersUntouched(s, a, c);
    }
  }

  lemma OthersUntouched(s: State, a: Action, c: CallId)
    requires Enabled(s, a) && c in s.calls && (a.ForeignAdds? || a.ForeignRemoves? || a.c != c)
    ensures c in Apply(s, a).calls && Apply(s, a).calls[c] == s.calls[c]
  {
  }

  lemma HandleOwnerStays(s: State, a: Action, c: CallId, id: RequestId)
    requires Inv(s) && Enabled(s, a) && OwnsHandle(s.calls, c, id) && id in Apply(s, a).handles
    ensures OwnsHandle(Apply(s, a).calls, c, id)
  {
    CallsAfter(s, a, c);
    hide AllOk, Distinct, PortsOf, View, Apply, Enabled;
    if InPhase(Apply(s, a), c, Over) {
      EndLeavesNothing(s, a, c);
    }
  }

  lemma ForwardOwnerStays(s: State, a: Action, c: CallId, port: Port, id: RequestId)
    requires Inv(s) && Enabled(s, a) && AnswersFor(s.calls, c, id)
    requires port in Apply(s, a).forwards && Apply(s, a).forwards[port] == Control(id)
    ensures AnswersFor(Apply(s, a).calls, c, id)
  {
    UseCallOk(s, c);
    CallsAfter(s, a, c);
    hide AllOk, Distinct, View, Apply, Enabled;
    assert port in PortsOf(Apply(s, a).forwards, id);
    if Live(s.calls[c]) && InPhase(Apply(s, a), c, Over) {
      EndLeavesNothing(s, a, c);
    }
  }

  lemma StepKeepsOwned(s: State, a: Action)
    requires Inv(s) && Enabled(s, a) && Owned(s)
    ensures Owned(Apply(s, a))
  {
    hide AllOk, Distinct;
    var t := Apply(s, a);
    forall id | id in t.handles ensures exists c :: OwnsHandle(t.calls, c, id) {
      if id in s.handles {
        var c :| OwnsHandle(s.calls, c, id);
        HandleOwnerStays(s, a, c, id);
      } else {
        assert OwnsHandle(t.calls, a.c, id);
      }
    }
    forall port | port in t.forwards && t.forwards[port].Control?
      ensures exists c :: AnswersFor(t.calls, c, t.forwards[port].id)
    {
      if port in s.forwards && s.forwards[port] == t.forwards[port] {
        var c :| AnswersFor(s.calls, c, s.forwards[port].id);
        ForwardOwnerStays(s, a, c, port, s.forwards[port].id);
      } else {
        assert AnswersFor(t.calls, a.c, t.forwards[port].id);
      }
    }
  }

  lemma {:induction false} RunKeepsOwned(states: seq<State>, actions: seq<Action>, i: nat)
    requires Run(states, actions) && i < |states|
    ensures Owned(states[i])
  {
    if i > 0 {
      RunKeepsInv(states, actions, i - 1);
      RunKeepsOwned(states, actions, i - 1);
      StepKeepsOwned(states[i - 1], actions[i - 1]);
    }
  }

  /** Once every call has ended, no handle is left, and a forward of this program only if adb
      did not do what it was asked for that very request. */
  lemma QuietMeansClean(states: seq<State>, actions: seq<Action>, i: nat)
    requires Run(states, actions) && i < |states|
    requires forall c :: c in states[i].calls ==> states[i].calls[c].phase.Over?
    ensures states[i].handles == map[]
    ensures forall port :: port in states[i].forwards && states[i].forwards[port].Control? ==>
      exists c :: c in states[i].calls && states[i].calls[c].id == states[i].forwards[port].id
        && WasDisobeyed(states, actions, i, c)
  {
    RunKeepsOwned(states, actions, i);
    var s := states[i];
    assert forall c, id :: !OwnsHandle(s.calls, c, id);
    assert forall id :: id !in s.handles;
    forall port | port in s.forwards && s.forwards[port].Control?
      ensures exists c :: c in s.calls && s.calls[c].id == s.forwards[port].id && WasDisobeyed(states, actions, i, c)
    {
      var c :| AnswersFor(s.calls, c, s.forwards[port].id);
      RunIsRecorded(states, actions, i, c);
    }
  }

  // ---------------------------------------------------------------- every call comes to its end

  /** How far a phase is from the end. */
  function Rank(phase: Phase): nat {
    match phase
    case Waiting => 12
    case Preparing => 11
    case Named => 10
    case Untracked => 9
    case Purging(_) => 8
    case Forwarded(_) => 8
    case Tracked => 7
    case ServiceUp => 6
    case Reading => 5
    case Uploading => 4
    case Ending(_) => 3
    case Popped(_, _) => 2
    case Unforwarding(_) => 1
    case Over => 0
  }

  /** Every step of a call brings it nearer to its end. */
  lemma StepsLeadToTheEnd(s: State, a: Action)
    requires Enabled(s, a) && OfACall(a) && a.c in s.calls
    ensures var before, after := s.calls[a.c].phase, Apply(s, a).calls[a.c].phase;
      Rank(after) < Rank(before) || (before.Purging? && after.Purging? && after.ports < before.ports)
  {
    hide PortsOf;
  }

  /** A call that is not over can go on; one that waits for the lock can unless another call
      prepares, and that one can go on. */
  lemma NobodyIsStuck(s: State, c: CallId) returns (a: Action)
    requires Inv(s) && c in s.calls && !s.calls[c].phase.Over?
    ensures Enabled(s, a) && OfACall(a) && !a.Arrive? && !a.GiveUp?
    ensures a.c == c || (s.calls[c].phase.Waiting? && s.lock == Some(a.c))
  {
    a := Acquire(c);
    if !s.calls[c].phase.Waiting? {
      a := Onward(s, c);
    } else if s.lock.Some? {
      UseCallOk(s, s.lock.value);
      a := Onward(s, s.lock.value);
    }
  }

  lemma Onward(s: State, c: CallId) returns (a: Action)
    requires Inv(s) && c in s.calls && !s.calls[c].phase.Over? && !s.calls[c].phase.Waiting?
    ensures Enabled(s, a) && OfACall(a) && !a.Arrive? && !a.GiveUp? && a.c == c
  {
    UseCallOk(s, c);
    match s.calls[c].phase
    case Preparing => a := FailEarly(c);
    case Named => a := Forward(c, None, Unclear);
    case Untracked => a := List(c, true);
    case Purging(_) => a := Purged(c);
    case Forwarded(_) => a := Store(c);
    case Tracked => a := Start(c, Accepted);
    case ServiceUp => a := Connect(c, true);
    case Reading => a := Status(c, Ready);
    case Uploading => a := Finish(c, Stored);
    case Ending(_) => a := Pop(c);
    case Popped(_, _) => a := SendCommand(c);
    case Unforwarding(_) => a := Unforward(c, true);
  }
}
