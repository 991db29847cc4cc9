// The session loop and the host page's handlers as the imperative code they
// are, each method proved to take exactly the step of SessionHost it stands for.
module SessionLoop {
  import opened Wrappers
  import opened Devices
  import opened SessionHost
  import Sdp

  // What sits behind the mutex.
  class SharedState {
    var paired: seq<PairedDevice>
    var pending: Option<string>
    var active: Option<Active>

    constructor (paired: seq<PairedDevice>)
      ensures this.paired == paired && pending.None? && active.None?
    {
      this.paired := paired;
      pending := None;
      active := None;
    }
  }

  class HostProcess {
    const shared: SharedState
    var session: nat
    var current: Option<nat>
    var pending: Option<Waiting>
    var commands: seq<Command>
    var removing: seq<string>
    var connections: seq<Connection>
    var doing: Activity
    ghost var answers: nat

    ghost function State(): Host
      reads this, shared
    {
      Host(session, current, pending, Shared(shared.paired, shared.pending, shared.active),
           commands, removing, connections, doing, answers)
    }

    constructor (paired: seq<PairedDevice>)
      ensures State() == Fresh(paired) && fresh(shared)
    {
      shared := new SharedState(paired);
      session := 0;
      current := None;
      pending := None;
      commands := [];
      removing := [];
      connections := [];
      doing := AwaitingConfig;
      answers := 0;
    }

    method Close(c: nat)
      modifies this`connections
      ensures connections == Closed(old(connections), c)
    {
      if c < |connections| {
        connections := connections[c := connections[c].(open := false)];
      }
    }

    // The loop returns, and the receiver of the queue goes with it.
    method StopLoop()
      modifies this`doing, this`commands
      ensures State() == Stop(old(State()))
    {
      doing := Stopped;
      commands := [];
    }

    // `commands.send`, from the host page.
    method Send(command: Command)
      modifies this`commands
      ensures State() == Queued(old(State()), command)
    {
      if !doing.Stopped? {
        commands := commands + [command];
      }
    }

    method StartNextSession()
      modifies this
      ensures State() == NextSession(old(State()))
    {
      session := (session + 1) % SESSIONS;
      answers := 0;
      doing := Starting;
    }

    method ViewerJoinedArm()
      modifies this, shared
      ensures State() == OnViewerJoined(old(State()))
    {
      pending := None;
      shared.pending := None;
      shared.active := None;
      if current.Some? {
        doing := ClosingOld(current.value);
        current := None;
      } else {
        StartNextSession();
      }
    }

    // `viewer` is what the parser reads from the SDP.
    method AnswerArm(answered: nat, sdp: string, viewer: Option<string>, saved: bool, now: nat)
      modifies this, shared
      ensures State() == OnAnswer(old(State()), answered, sdp, viewer, saved, now)
    {
      if answered != session {
        return;
      }
      answers := answers + 1;
      if current.None? || viewer.None? {
        return;
      }
      if Contains(shared.paired, viewer.value) {
        shared.paired := Touched(shared.paired, viewer.value, now);
        if !saved {
          StopLoop();
          return;
        }
        shared.active := Some(Active(viewer.value, current.value));
        doing := Applying(current.value, viewer.value);
      } else {
        shared.pending := viewer;
        pending := Some(Waiting(session, sdp, viewer.value));
      }
    }

    method ApproveArm(fingerprint: string, name: string, saved: bool, now: nat)
      modifies this, shared
      ensures State() == OnApprove(old(State()), fingerprint, name, saved, now)
    {
      if pending.None? || pending.value.fingerprint != fingerprint {
        return;
      }
      var waiting := pending.value;
      pending := None;
      if current.None? || waiting.session != session {
        return;
      }
      var listed := Contains(shared.paired, waiting.fingerprint);
      shared.paired := Added(shared.paired, waiting.fingerprint, DefaultName(name, shared.paired), now);
      if !listed && !saved {
        StopLoop();
        return;
      }
      shared.pending := None;
      shared.active := Some(Active(waiting.fingerprint, current.value));
      doing := Applying(current.value, waiting.fingerprint);
    }

    method RejectArm(fingerprint: string)
      requires doing.Idle?
      modifies this, shared
      ensures State() == OnReject(old(State()), fingerprint)
    {
      if pending.None? || pending.value.fingerprint != fingerprint {
        return;
      }
      pending := None;
      shared.pending := None;
      if current.Some? {
        doing := ClosingRejected(current.value);
        current := None;
      }
    }

    method DisconnectArm(fingerprint: string)
      modifies this, shared
      ensures State() == OnDisconnect(old(State()), fingerprint)
    {
      if shared.active.Some? && shared.active.value.fingerprint == fingerprint {
        doing := ClosingRemoved(shared.active.value.connection);
        shared.active := None;
      }
    }

    // `commands.recv()`
    method CommandArm(saved: bool, now: nat)
      requires doing.Idle? && commands != []
      modifies this, shared
      ensures State() == OnCommand(old(State()), saved, now)
    {
      var command := commands[0];
      commands := commands[1..];
      match command
      case Approve(fingerprint, name) => ApproveArm(fingerprint, name, saved, now);
      case Reject(fingerprint) => RejectArm(fingerprint);
      case Disconnect(fingerprint) => DisconnectArm(fingerprint);
    }

    // What follows an `.await`.
    method AfterAwait(ok: bool)
      modifies this
      ensures State() == OnResume(old(State()), ok)
    {
      match doing
      case Applying(c, fingerprint) =>
        doing := Idle;
        if ok && c < |connections| && connections[c].open {
          connections := connections[c := connections[c].(applied := Some(fingerprint))];
        }
      case ClosingRejected(c) =>
        doing := Idle;
        Close(c);
      case ClosingRemoved(c) =>
        doing := Idle;
        Close(c);
        current := None;
      case ClosingOld(c) =>
        Close(c);
        StartNextSession();
      case Starting =>
        doing := Idle;
        if ok {
          current := Some(|connections|);
          connections := connections + [Connection(session, true, None)];
        }
      case _ =>
    }

    // `remove` on the host page, up to releasing the lock.
    method RemoveRequest(fingerprint: string, saved: bool)
      modifies this, shared
      ensures State() == OnRemove(old(State()), fingerprint, saved)
    {
      var before := |shared.paired|;
      shared.paired := Without(shared.paired, fingerprint);
      if |shared.paired| < before && saved {
        removing := removing + [fingerprint];
      }
    }

    // `remove` on the host page, its send to the loop.
    method SendDisconnect(handler: nat)
      modifies this
      ensures State() == OnQueueDisconnect(old(State()), handler)
    {
      if handler < |removing| {
        Send(Disconnect(removing[handler]));
        removing := removing[..handler] + removing[handler + 1..];
      }
    }

    // The message arm of the select.
    method MessageArm(message: Message, saved: bool, now: nat)
      requires message.Answer? ==> message.fingerprint == Sdp.RustFingerprint(message.sdp)
      modifies this, shared
      ensures State() == Next(old(State()), Receive(message, saved, now))
    {
      match message {
        case Config => if doing.AwaitingConfig? { doing := Idle; }
        case ViewerJoined => if doing.Idle? { ViewerJoinedArm(); }
        case Answer(answered, sdp, _) =>
          var viewer := Sdp.RustFingerprintFromSdp(sdp);
          if doing.Idle? { AnswerArm(answered, sdp, viewer, saved, now); }
        case Offer =>
      }
    }

    // One step of the loop, or one request of the host page.
    method Step(e: Event)
      requires e.Receive? && e.message.Answer? ==> e.message.fingerprint == Sdp.RustFingerprint(e.message.sdp)
      modifies this, shared
      ensures State() == Next(old(State()), e)
    {
      match e {
        case Receive(message, saved, now) => MessageArm(message, saved, now);
        case TakeCommand(saved, now) => if doing.Idle? && commands != [] { CommandArm(saved, now); }
        case Resume(ok) => AfterAwait(ok);
        case LinkLost => if doing.Idle? || doing.AwaitingConfig? { StopLoop(); }
        case AdminApprove(fingerprint, name) => Send(Approve(fingerprint, name));
        case AdminReject(fingerprint) => Send(Reject(fingerprint));
        case AdminRename(fingerprint, name) => shared.paired := Renamed(shared.paired, fingerprint, name);
        case AdminRemove(fingerprint, saved) => RemoveRequest(fingerprint, saved);
        case AdminQueueDisconnect(handler) => SendDisconnect(handler);
      }
    }

    // The select loop with the handlers of the host page in between, in the
    // order `events` gives.
    method RunSessions(events: seq<Event>)
      requires forall e :: e in events && e.Receive? && e.message.Answer? ==>
        e.message.fingerprint == Sdp.RustFingerprint(e.message.sdp)
      modifies this, shared
      ensures State() == Run(old(State()), events)
    {
      var i := 0;
      while i < |events|
        invariant 0 <= i <= |events|
        invariant Run(State(), events[i..]) == Run(old(State()), events)
      {
        assert events[i..][1..] == events[i + 1..];
        Step(events[i]);
        i := i + 1;
      }
    }
  }
}
