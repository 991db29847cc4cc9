// The host's session loop (host/src/webrtc_host.rs), the state it shares with
// the host page (host/src/admin.rs), and the page's handlers, as one machine.
//
// Each event is one atomic step. The loop is cut at every `.await` that comes
// after a lock is released, so handlers of the host page can run in between;
// `doing` says where the loop is suspended. An event that cannot happen in a
// state leaves it unchanged, so every sequence of events is a run.
module SessionHost {
  import opened Wrappers
  import opened Devices

  datatype Command =
    | Approve(fingerprint: string, name: string)
    | Reject(fingerprint: string)
    | Disconnect(fingerprint: string)

  // The unpaired device's answer that the loop keeps until it hears from the
  // host page.
  datatype Waiting = Waiting(session: nat, sdp: string, fingerprint: string)

  // A peer connection: the session number in its offer, whether it is open,
  // and whose answer was applied to it.
  datatype Connection = Connection(offer: nat, open: bool, applied: Option<string>)

  datatype Active = Active(fingerprint: string, connection: nat)

  datatype Shared = Shared(paired: seq<PairedDevice>, pending: Option<string>, active: Option<Active>)

  datatype Activity =
    | AwaitingConfig
    | Idle
    | Applying(connection: nat, fingerprint: string)
    | ClosingRejected(connection: nat)
    | ClosingRemoved(connection: nat)
    | ClosingOld(connection: nat)
    | Starting
    | Stopped

  // `removing` holds the devices that `remove` has taken off the list but not
  // yet queued a Disconnect for. `answers` counts the answers that carried
  // the current session's number; no step reads it.
  datatype Host = Host(
    session: nat,
    current: Option<nat>,
    pending: Option<Waiting>,
    shared: Shared,
    commands: seq<Command>,
    removing: seq<string>,
    connections: seq<Connection>,
    doing: Activity,
    answers: nat)

  // A message as the loop reads it. `fingerprint` is what the SDP parser finds
  // in the answer's SDP.
  datatype Message =
    | Config
    | ViewerJoined
    | Offer
    | Answer(session: nat, sdp: string, fingerprint: Option<string>)

  // `saved` tells whether writing the paired list succeeds in that step.
  datatype Event =
    | Receive(message: Message, saved: bool, now: nat)
    | TakeCommand(saved: bool, now: nat)
    | Resume(ok: bool)
    | LinkLost
    | AdminApprove(fingerprint: string, name: string)
    | AdminReject(fingerprint: string)
    | AdminRename(fingerprint: string, name: string)
    | AdminRemove(fingerprint: string, saved: bool)
    | AdminQueueDisconnect(handler: nat)

  const SESSIONS := 0x1_0000_0000

  function Fresh(paired: seq<PairedDevice>): Host {
    Host(0, None, None, Shared(paired, None, None), [], [], [], AwaitingConfig, 0)
  }

  function Closed(connections: seq<Connection>, c: nat): (r: seq<Connection>)
    ensures |r| == |connections|
    ensures forall i :: 0 <= i < |r| ==> r[i] == if i == c then connections[i].(open := false) else connections[i]
  {
    if c < |connections| then connections[c := connections[c].(open := false)] else connections
  }

  function DefaultName(name: string, paired: seq<PairedDevice>): string {
    if name == "" then "device " + Decimal(|paired| + 1) else name
  }

  function Decimal(n: nat): string {
    if n < 10 then [('0' as int + n) as char] else Decimal(n / 10) + Decimal(n % 10)
  }

  // ------------------------------------------------------------ the loop's arms

  // `run_sessions` returns. It owns the receiver of the queue, so whatever is
  // in the queue is gone, and its connections go on.
  function Stop(h: Host): Host { h.(doing := Stopped, commands := []) }

  function OnApprove(h: Host, fingerprint: string, name: string, saved: bool, now: nat): Host {
    if h.pending.None? || h.pending.value.fingerprint != fingerprint then h
    else
      var p := h.pending.value;
      var h1 := h.(pending := None);
      if h.current.None? || p.session != h.session then h1
      else
        var paired := Added(h.shared.paired, p.fingerprint, DefaultName(name, h.shared.paired), now);
        if !saved && !Contains(h.shared.paired, p.fingerprint) then
          Stop(h1.(shared := h.shared.(paired := paired)))
        else
          h1.(shared := Shared(paired, None, Some(Active(p.fingerprint, h.current.value))),
              doing := Applying(h.current.value, p.fingerprint))
  }

  function OnReject(h: Host, fingerprint: string): Host {
    if h.pending.None? || h.pending.value.fingerprint != fingerprint then h
    else
      h.(pending := None,
         shared := h.shared.(pending := None),
         current := None,
         doing := if h.current.Some? then ClosingRejected(h.current.value) else Idle)
  }

  function OnDisconnect(h: Host, fingerprint: string): Host {
    if h.shared.active.None? || h.shared.active.value.fingerprint != fingerprint then h
    else
      h.(shared := h.shared.(active := None), doing := ClosingRemoved(h.shared.active.value.connection))
  }

  // `session += 1` on a u32.
  function NextSession(h: Host): Host {
    h.(session := (h.session + 1) % SESSIONS, answers := 0, doing := Starting)
  }

  function OnViewerJoined(h: Host): Host {
    var h1 := h.(pending := None, shared := h.shared.(pending := None, active := None), current := None);
    if h.current.Some? then h1.(doing := ClosingOld(h.current.value)) else NextSession(h1)
  }

  function OnAnswer(h: Host, session: nat, sdp: string, fingerprint: Option<string>, saved: bool, now: nat): Host {
    if session != h.session then h
    else
      var h1 := h.(answers := h.answers + 1);
      if h.current.None? || fingerprint.None? then h1
      else if Contains(h.shared.paired, fingerprint.value) then
        var paired := Touched(h.shared.paired, fingerprint.value, now);
        if !saved then Stop(h1.(shared := h.shared.(paired := paired)))
        else
          h1.(shared := h.shared.(paired := paired, active := Some(Active(fingerprint.value, h.current.value))),
              doing := Applying(h.current.value, fingerprint.value))
      else
        h1.(shared := h.shared.(pending := fingerprint),
            pending := Some(Waiting(h.session, sdp, fingerprint.value)))
  }

  function OnResume(h: Host, ok: bool): Host {
    match h.doing
    case Applying(c, fingerprint) =>
      // set_remote_description may refuse the answer.
      h.(doing := Idle,
         connections := if ok && c < |h.connections| && h.connections[c].open
                        then h.connections[c := h.connections[c].(applied := Some(fingerprint))]
                        else h.connections)
    case ClosingRejected(c) => h.(doing := Idle, connections := Closed(h.connections, c))
    case ClosingRemoved(c) => h.(doing := Idle, connections := Closed(h.connections, c), current := None)
    case ClosingOld(c) => NextSession(h.(connections := Closed(h.connections, c)))
    case Starting =>
      if ok then
        h.(doing := Idle,
           connections := h.connections + [Connection(h.session, true, None)],
           current := Some(|h.connections|))
      else h.(doing := Idle)
    case _ => h
  }

  function OnCommand(h: Host, saved: bool, now: nat): Host
    requires h.commands != []
  {
    var h1 := h.(commands := h.commands[1..]);
    match h.commands[0]
    case Approve(fingerprint, name) => OnApprove(h1, fingerprint, name, saved, now)
    case Reject(fingerprint) => OnReject(h1, fingerprint)
    case Disconnect(fingerprint) => OnDisconnect(h1, fingerprint)
  }

  function OnMessage(h: Host, message: Message, saved: bool, now: nat): Host {
    match message
    case ViewerJoined => if h.doing.Idle? then OnViewerJoined(h) else h
    case Answer(session, sdp, fp) => if h.doing.Idle? then OnAnswer(h, session, sdp, fp, saved, now) else h
    case Config => if h.doing.AwaitingConfig? then h.(doing := Idle) else h
    case Offer => h
  }

  // ------------------------------------------------------- the host page's side

  // `commands.send`, whose error is ignored: there is no queue any more once
  // the loop has ended.
  function Queued(h: Host, command: Command): Host {
    if h.doing.Stopped? then h else h.(commands := h.commands + [command])
  }

  function OnRemove(h: Host, fingerprint: string, saved: bool): Host {
    var left := Without(h.shared.paired, fingerprint);
    h.(shared := h.shared.(paired := left),
       removing := if |left| < |h.shared.paired| && saved then h.removing + [fingerprint] else h.removing)
  }

  function OnQueueDisconnect(h: Host, handler: nat): Host {
    if handler < |h.removing| then
      Queued(h, Disconnect(h.removing[handler])).(
        removing := h.removing[..handler] + h.removing[handler + 1..])
    else h
  }

  function Next(h: Host, e: Event): Host {
    match e
    case Receive(message, saved, now) => OnMessage(h, message, saved, now)
    case TakeCommand(saved, now) => if h.doing.Idle? && h.commands != [] then OnCommand(h, saved, now) else h
    case Resume(ok) => OnResume(h, ok)
    case LinkLost => if h.doing.Idle? || h.doing.AwaitingConfig? then Stop(h) else h
    case AdminApprove(fingerprint, name) => Queued(h, Approve(fingerprint, name))
    case AdminReject(fingerprint) => Queued(h, Reject(fingerprint))
    case AdminRename(fingerprint, name) =>
      h.(shared := h.shared.(paired := Renamed(h.shared.paired, fingerprint, name)))
    case AdminRemove(fingerprint, saved) => OnRemove(h, fingerprint, saved)
    case AdminQueueDisconnect(handler) => OnQueueDisconnect(h, handler)
  }

  function Run(h: Host, events: seq<Event>): Host
    decreases |events|
  {
    if events == [] then h else Run(Next(h, events[0]), events[1..])
  }

  // ------------------------------------------- invariants of every possible run

  // A connection the loop has taken out of `current` and is closing now.
  predicate BeingClosed(h: Host, c: nat) {
    h.doing == ClosingRejected(c) || h.doing == ClosingOld(c)
  }

  // Between two sessions nothing of the old one is left.
  predicate BetweenSessions(h: Host) {
    h.current.None? && h.pending.None? && h.shared.pending.None? && h.shared.active.None?
  }

  ghost predicate Consistent(h: Host) {
    // Every connection ever started except the current one is closed.
    && (forall c :: 0 <= c < |h.connections| && h.connections[c].open ==> h.current == Some(c) || BeingClosed(h, c))
    // The current connection is open and its offer carries the loop's session.
    && (h.current.Some? ==>
          && h.current.value < |h.connections|
          && h.connections[h.current.value].open
          && h.connections[h.current.value].offer == h.session)
    // A waiting answer belongs to the loop's session.
    && (h.pending.Some? ==> h.pending.value.session == h.session)
    // The active connection is the current one or already closed.
    && (h.shared.active.Some? ==>
          var c := h.shared.active.value.connection;
          && c < |h.connections|
          && (h.current == Some(c) || (h.current.None? && (!h.connections[c].open || BeingClosed(h, c)))))
    && (match h.doing
        case Applying(c, fp) => h.current == Some(c) && h.shared.active == Some(Active(fp, c))
        case ClosingRejected(c) => h.current.None? && h.pending.None? && c < |h.connections|
        case ClosingRemoved(c) =>
          && c < |h.connections| && h.shared.active.None?
          && (h.current == Some(c) || (h.current.None? && !h.connections[c].open))
        case ClosingOld(c) => BetweenSessions(h) && c < |h.connections|
        case Starting => BetweenSessions(h)
        case AwaitingConfig => BetweenSessions(h)
        case _ => true)
    // A loop that has ended has no queue.
    && (h.doing.Stopped? ==> h.commands == [])
    // A device waiting for approval is not in the list.
    && (h.pending.Some? ==> !Contains(h.shared.paired, h.pending.value.fingerprint))
    && (h.shared.pending.Some? ==> !Contains(h.shared.paired, h.shared.pending.value) || h.doing.Stopped?)
  }

  lemma ConsistentStep(h: Host, e: Event)
    requires Consistent(h)
    ensures Consistent(Next(h, e))
  {
    match e
    case Receive(message, saved, now) => ConsistentMessage(h, message, saved, now);
    case TakeCommand(saved, now) => ConsistentTake(h, saved, now);
    case Resume(ok) => ConsistentResume(h, ok);
    case AdminRename(fingerprint, name) => ConsistentRename(h, fingerprint, name);
    case AdminRemove(fingerprint, saved) => ConsistentRemove(h, fingerprint, saved);
    case _ => ConsistentQueue(h, e);
  }

  lemma ConsistentMessage(h: Host, message: Message, saved: bool, now: nat)
    requires Consistent(h)
    ensures Consistent(OnMessage(h, message, saved, now))
  {
    match message
    case ViewerJoined => if h.doing.Idle? { ConsistentJoined(h); }
    case Answer(session, sdp, fp) => if h.doing.Idle? { ConsistentAnswer(h, session, sdp, fp, saved, now); }
    case _ =>
  }

  lemma ConsistentJoined(h: Host)
    requires Consistent(h) && h.doing.Idle?
    ensures Consistent(OnViewerJoined(h))
  {
  }

  lemma ConsistentTake(h: Host, saved: bool, now: nat)
    requires Consistent(h)
    ensures Consistent(Next(h, TakeCommand(saved, now)))
  {
    if h.doing.Idle? && h.commands != [] {
      ConsistentCommand(h, saved, now);
    }
  }

  // The requests of the host page that only queue something.
  lemma ConsistentQueue(h: Host, e: Event)
    requires Consistent(h)
    requires e.LinkLost? || e.AdminApprove? || e.AdminReject? || e.AdminQueueDisconnect?
    ensures Consistent(Next(h, e))
  {
  }

  lemma ConsistentRename(h: Host, fingerprint: string, name: string)
    requires Consistent(h)
    ensures Consistent(Next(h, AdminRename(fingerprint, name)))
  {
  }

  lemma ConsistentRemove(h: Host, fingerprint: string, saved: bool)
    requires Consistent(h)
    ensures Consistent(OnRemove(h, fingerprint, saved))
  {
  }

  lemma ConsistentAnswer(h: Host, session: nat, sdp: string, fp: Option<string>, saved: bool, now: nat)
    requires Consistent(h) && h.doing.Idle?
    ensures Consistent(OnAnswer(h, session, sdp, fp, saved, now))
  {
  }

  lemma ConsistentCommand(h: Host, saved: bool, now: nat)
    requires Consistent(h) && h.doing.Idle? && h.commands != []
    ensures Consistent(OnCommand(h, saved, now))
  {
    var h1 := h.(commands := h.commands[1..]);
    match h.commands[0]
    case Approve(fingerprint, name) => ConsistentApprove(h1, fingerprint, name, saved, now);
    case Reject(fingerprint) => ConsistentReject(h1, fingerprint);
    case Disconnect(fingerprint) => ConsistentDisconnect(h1, fingerprint);
  }

  lemma ConsistentApprove(h: Host, fingerprint: string, name: string, saved: bool, now: nat)
    requires Consistent(h) && h.doing.Idle?
    ensures Consistent(OnApprove(h, fingerprint, name, saved, now))
  {
  }

  lemma ConsistentReject(h: Host, fingerprint: string)
    requires Consistent(h) && h.doing.Idle?
    ensures Consistent(OnReject(h, fingerprint))
  {
  }

  lemma ConsistentDisconnect(h: Host, fingerprint: string)
    requires Consistent(h) && h.doing.Idle?
    ensures Consistent(OnDisconnect(h, fingerprint))
  {
  }

  lemma ConsistentResume(h: Host, ok: bool)
    requires Consistent(h)
    ensures Consistent(OnResume(h, ok))
  {
  }

  // Whatever messages arrive and whatever the user clicks.
  lemma {:induction false} ConsistentRun(h: Host, events: seq<Event>)
    requires Consistent(h)
    ensures Consistent(Run(h, events))
    decreases |events|
  {
    if events == [] {
    } else {
      ConsistentStep(h, events[0]);
      ConsistentRun(Next(h, events[0]), events[1..]);
    }
  }

  lemma FreshIsConsistent(paired: seq<PairedDevice>)
    ensures Consistent(Fresh(paired))
  {
  }

  // ------------------------------------------------ who can get an answer applied

  // In state `h`, event `e` approves exactly the device that is waiting, in
  // the session it is waiting in.
  predicate Approves(h: Host, e: Event, fingerprint: string) {
    && e.TakeCommand? && h.doing.Idle?
    && h.commands != [] && h.commands[0].Approve? && h.commands[0].fingerprint == fingerprint
    && h.current.Some?
    && h.pending.Some? && h.pending.value.fingerprint == fingerprint && h.pending.value.session == h.session
  }

  // Devices the host lets in: listed, or with an answer applied or about to be.
  predicate LetIn(h: Host, fingerprint: string) {
    || Contains(h.shared.paired, fingerprint)
    || (h.doing.Applying? && h.doing.fingerprint == fingerprint)
    || exists c :: 0 <= c < |h.connections| && h.connections[c].applied == Some(fingerprint)
  }

  lemma ListedStep(h: Host, e: Event, fingerprint: string)
    requires Contains(Next(h, e).shared.paired, fingerprint)
    ensures Contains(h.shared.paired, fingerprint) || Approves(h, e, fingerprint)
  {
  }

  lemma ApplyingStep(h: Host, e: Event, fingerprint: string)
    requires Next(h, e).doing.Applying? && Next(h, e).doing.fingerprint == fingerprint
    ensures LetIn(h, fingerprint) || Approves(h, e, fingerprint)
  {
  }

  lemma AppliedStep(h: Host, e: Event, c: nat, fingerprint: string)
    requires c < |Next(h, e).connections| && Next(h, e).connections[c].applied == Some(fingerprint)
    ensures
      || (c < |h.connections| && h.connections[c].applied == Some(fingerprint))
      || (h.doing.Applying? && h.doing.fingerprint == fingerprint)
  {
  }

  lemma LetInStep(h: Host, e: Event, fingerprint: string)
    requires LetIn(Next(h, e), fingerprint)
    ensures LetIn(h, fingerprint) || Approves(h, e, fingerprint)
  {
    var n := Next(h, e);
    if Contains(n.shared.paired, fingerprint) {
      ListedStep(h, e, fingerprint);
    } else if n.doing.Applying? && n.doing.fingerprint == fingerprint {
      ApplyingStep(h, e, fingerprint);
    } else {
      var c :| 0 <= c < |n.connections| && n.connections[c].applied == Some(fingerprint);
      AppliedStep(h, e, c, fingerprint);
    }
  }

  // Over any run, a device is let in only if it already was at the start or
  // the user approved it at a moment when it was the one waiting.
  lemma {:induction false} LetInOnlyIfApproved(h: Host, events: seq<Event>, fingerprint: string)
    requires LetIn(Run(h, events), fingerprint)
    ensures LetIn(h, fingerprint)
      || exists i :: 0 <= i < |events| && Approves(Run(h, events[..i]), events[i], fingerprint)
    decreases |events|
  {
    if events == [] {
    } else {
      var rest := events[1..];
      LetInOnlyIfApproved(Next(h, events[0]), rest, fingerprint);
      if LetIn(Next(h, events[0]), fingerprint) {
        LetInStep(h, events[0], fingerprint);
        if !LetIn(h, fingerprint) {
          assert events[..0] == [];
          assert Approves(Run(h, events[..0]), events[0], fingerprint);
        }
      } else {
        var i :| 0 <= i < |rest| && Approves(Run(Next(h, events[0]), rest[..i]), rest[i], fingerprint);
        assert events[..i + 1][1..] == rest[..i];
        assert Approves(Run(h, events[..i + 1]), events[i + 1], fingerprint);
      }
    }
  }

  // From a fresh start on: no stream of messages and commands makes the host
  // lose track of its connections, or let in a device that was neither listed
  // at the start nor approved.
  lemma AlwaysConsistent(paired: seq<PairedDevice>, events: seq<Event>, fingerprint: string)
    ensures Consistent(Run(Fresh(paired), events))
    ensures LetIn(Run(Fresh(paired), events), fingerprint) ==>
      || Contains(paired, fingerprint)
      || exists i :: 0 <= i < |events| && Approves(Run(Fresh(paired), events[..i]), events[i], fingerprint)
  {
    FreshIsConsistent(paired);
    ConsistentRun(Fresh(paired), events);
    if LetIn(Run(Fresh(paired), events), fingerprint) {
      LetInOnlyIfApproved(Fresh(paired), events, fingerprint);
    }
  }

  // ------------------------------------------- at most one answer per session

  // A connection an answer was applied to, or is about to be applied to.
  predicate Serves(h: Host, c: nat, fingerprint: string) {
    && c < |h.connections| && h.connections[c].open
    && (h.connections[c].applied == Some(fingerprint) || h.doing == Applying(c, fingerprint))
  }

  // The host page shows exactly the answer the loop holds. A failed save
  // that ends the loop is the only exception.
  predicate PendingIsShown(h: Host) {
    h.doing.Stopped? || h.shared.pending == if h.pending.None? then None else Some(h.pending.value.fingerprint)
  }

  predicate NeverBoth(h: Host) { h.pending.None? || h.shared.active.None? }

  predicate ActiveIsCurrent(h: Host) {
    h.shared.active.Some? ==> h.current == Some(h.shared.active.value.connection)
  }

  // The device a connection serves is the one `active` names, until the loop
  // closes that connection.
  ghost predicate ServedIsActive(h: Host) {
    forall c, f :: Serves(h, c, f) ==>
      h.shared.active == Some(Active(f, c)) || h.doing == ClosingRemoved(c) || h.doing == ClosingOld(c)
  }

  ghost predicate Orderly(h: Host) {
    && Consistent(h)
    && PendingIsShown(h) && NeverBoth(h) && ActiveIsCurrent(h) && ServedIsActive(h)
    && (h.pending.Some? ==> h.current.Some?)
    && (h.doing.ClosingRemoved? ==> h.current == Some(h.doing.connection) && h.pending.None?)
    && (h.doing.ClosingRejected? ==> h.shared.active.None?)
    && (h.doing.Starting? ==> h.answers == 0)
    && (h.answers == 0 ==>
          && h.pending.None? && h.shared.active.None?
          && !h.doing.Applying? && !h.doing.ClosingRejected? && !h.doing.ClosingRemoved?)
  }

  lemma OrderlyStep(h: Host, e: Event)
    requires Orderly(h) && h.answers <= 1 && Next(h, e).answers <= 1
    ensures Orderly(Next(h, e))
  {
    ConsistentStep(h, e);
    match e
    case Receive(message, saved, now) => OrderlyMessage(h, message, saved, now);
    case TakeCommand(saved, now) => OrderlyTake(h, saved, now);
    case Resume(ok) => OrderlyResume(h, ok);
    case _ => OrderlyAdmin(h, e);
  }

  lemma OrderlyAdmin(h: Host, e: Event)
    requires Orderly(h) && !e.Receive? && !e.TakeCommand? && !e.Resume? && Consistent(Next(h, e))
    ensures Orderly(Next(h, e))
  {
  }

  lemma OrderlyMessage(h: Host, message: Message, saved: bool, now: nat)
    requires Orderly(h) && h.answers <= 1 && OnMessage(h, message, saved, now).answers <= 1
    requires Consistent(OnMessage(h, message, saved, now))
    ensures Orderly(OnMessage(h, message, saved, now))
  {
    match message
    case ViewerJoined => if h.doing.Idle? { OrderlyJoined(h); }
    case Answer(session, sdp, fp) => if h.doing.Idle? { OrderlyAnswer(h, session, sdp, fp, saved, now); }
    case _ =>
  }

  lemma OrderlyJoined(h: Host)
    requires Orderly(h) && h.doing.Idle? && Consistent(OnViewerJoined(h))
    ensures Orderly(OnViewerJoined(h))
  {
  }

  lemma OrderlyAnswer(h: Host, session: nat, sdp: string, fp: Option<string>, saved: bool, now: nat)
    requires Orderly(h) && h.doing.Idle? && h.answers <= 1 && OnAnswer(h, session, sdp, fp, saved, now).answers <= 1
    requires Consistent(OnAnswer(h, session, sdp, fp, saved, now))
    ensures Orderly(OnAnswer(h, session, sdp, fp, saved, now))
  {
  }

  lemma OrderlyTake(h: Host, saved: bool, now: nat)
    requires Orderly(h) && Consistent(Next(h, TakeCommand(saved, now)))
    ensures Orderly(Next(h, TakeCommand(saved, now)))
  {
    if h.doing.Idle? && h.commands != [] {
      OrderlyCommand(h, saved, now);
    }
  }

  lemma OrderlyCommand(h: Host, saved: bool, now: nat)
    requires Orderly(h) && h.doing.Idle? && h.commands != []
    requires Consistent(OnCommand(h, saved, now))
    ensures Orderly(OnCommand(h, saved, now))
  {
    var h1 := h.(commands := h.commands[1..]);
    OrderlyWithoutCommand(h);
    match h.commands[0]
    case Approve(fingerprint, name) => OrderlyApprove(h1, fingerprint, name, saved, now);
    case Reject(fingerprint) => OrderlyReject(h1, fingerprint);
    case Disconnect(fingerprint) => OrderlyDisconnect(h1, fingerprint);
  }

  lemma OrderlyWithoutCommand(h: Host)
    requires Orderly(h) && h.commands != []
    ensures Orderly(h.(commands := h.commands[1..]))
  {
  }

  lemma OrderlyApprove(h: Host, fingerprint: string, name: string, saved: bool, now: nat)
    requires Orderly(h) && h.doing.Idle? && Consistent(OnApprove(h, fingerprint, name, saved, now))
    ensures Orderly(OnApprove(h, fingerprint, name, saved, now))
  {
  }

  lemma OrderlyReject(h: Host, fingerprint: string)
    requires Orderly(h) && h.doing.Idle? && Consistent(OnReject(h, fingerprint))
    ensures Orderly(OnReject(h, fingerprint))
  {
  }

  lemma OrderlyDisconnect(h: Host, fingerprint: string)
    requires Orderly(h) && h.doing.Idle? && Consistent(OnDisconnect(h, fingerprint))
    ensures Orderly(OnDisconnect(h, fingerprint))
  {
  }

  lemma OrderlyResume(h: Host, ok: bool)
    requires Orderly(h) && Consistent(OnResume(h, ok))
    ensures Orderly(OnResume(h, ok))
  {
  }

  // At no point of the run has a second answer to the current session arrived.
  ghost predicate OneAnswerEach(h: Host, events: seq<Event>)
    decreases |events|
  {
    h.answers <= 1 && (events != [] ==> OneAnswerEach(Next(h, events[0]), events[1..]))
  }

  lemma {:induction false} OrderlyRun(h: Host, events: seq<Event>)
    requires Orderly(h) && OneAnswerEach(h, events)
    ensures Orderly(Run(h, events))
    decreases |events|
  {
    if events == [] {
    } else {
      OrderlyStep(h, events[0]);
      OrderlyRun(Next(h, events[0]), events[1..]);
    }
  }

  // ------------------------------------------------------ removal is never lost

  // A request to disconnect the device is on its way to a loop that runs.
  predicate DisconnectComing(h: Host, fingerprint: string) {
    !h.doing.Stopped? && (Disconnect(fingerprint) in h.commands || fingerprint in h.removing)
  }

  predicate ListedOrLeaving(h: Host, fingerprint: string) {
    Contains(h.shared.paired, fingerprint) || DisconnectComing(h, fingerprint)
  }

  // For as long as the loop runs.
  predicate ActiveIsAccountedFor(h: Host) {
    h.doing.Stopped? || (h.shared.active.Some? ==> ListedOrLeaving(h, h.shared.active.value.fingerprint))
  }

  ghost predicate NoneForgotten(h: Host) {
    forall c, f :: Serves(h, c, f) ==>
      ListedOrLeaving(h, f) || h.doing == ClosingRemoved(c) || h.doing == ClosingOld(c)
  }

  ghost predicate RemovalsSave(events: seq<Event>) {
    forall i :: 0 <= i < |events| && events[i].AdminRemove? ==> events[i].saved
  }

  lemma AccountedForStep(h: Host, e: Event)
    requires Orderly(h) && ActiveIsAccountedFor(h) && (e.AdminRemove? ==> e.saved)
    ensures ActiveIsAccountedFor(Next(h, e))
  {
    match e
    case Receive(message, saved, now) => AccountedForMessage(h, message, saved, now);
    case TakeCommand(saved, now) =>
      if h.doing.Idle? && h.commands != [] {
        AccountedForCommand(h, saved, now);
      }
    case AdminQueueDisconnect(i) =>
      if i < |h.removing| {
        assert h.removing == h.removing[..i] + [h.removing[i]] + h.removing[i + 1..];
      }
    case _ =>
  }

  lemma AccountedForMessage(h: Host, message: Message, saved: bool, now: nat)
    requires ActiveIsAccountedFor(h)
    ensures ActiveIsAccountedFor(OnMessage(h, message, saved, now))
  {
  }

  lemma AccountedForCommand(h: Host, saved: bool, now: nat)
    requires Orderly(h) && h.doing.Idle? && h.commands != [] && ActiveIsAccountedFor(h)
    ensures ActiveIsAccountedFor(OnCommand(h, saved, now))
  {
    assert h.commands == [h.commands[0]] + h.commands[1..];
  }

  // Under every interleaving of the host page with a running loop, a connection
  // that serves a device has it listed, or a request to disconnect it coming.
  lemma {:induction false} RemovalIsNeverLost(h: Host, events: seq<Event>)
    requires Orderly(h) && ActiveIsAccountedFor(h)
    requires OneAnswerEach(h, events) && RemovalsSave(events)
    ensures Orderly(Run(h, events)) && ActiveIsAccountedFor(Run(h, events))
    ensures !Run(h, events).doing.Stopped? ==> NoneForgotten(Run(h, events))
    decreases |events|
  {
    if events == [] {
    } else {
      AccountedForStep(h, events[0]);
      OrderlyStep(h, events[0]);
      RemovalIsNeverLost(Next(h, events[0]), events[1..]);
    }
  }

  // Nothing queued, nothing under way.
  predicate Quiet(h: Host) { h.doing.Idle? && h.commands == [] && h.removing == [] }

  // Once the queue has drained after a removal, no open connection serves the
  // device, unless the user approved it again.
  lemma AfterRemovalNothingServes(h: Host, fingerprint: string, removed: Host, events: seq<Event>)
    requires Orderly(h) && ActiveIsAccountedFor(h)
    requires removed == Next(h, AdminRemove(fingerprint, true))
    requires OneAnswerEach(removed, events) && RemovalsSave(events)
    requires forall i :: 0 <= i < |events| ==> !Approves(Run(removed, events[..i]), events[i], fingerprint)
    requires Quiet(Run(removed, events))
    ensures forall c :: !Serves(Run(removed, events), c, fingerprint)
  {
    assert Orderly(removed) && ActiveIsAccountedFor(removed) by {
      assert removed.answers == h.answers <= 1 by {
        assert OneAnswerEach(removed, events);
      }
      AccountedForStep(h, AdminRemove(fingerprint, true));
      OrderlyStep(h, AdminRemove(fingerprint, true));
    }
    RemovalIsNeverLost(removed, events);
    StaysUnlisted(removed, events, fingerprint);
  }

  lemma {:induction false} StaysUnlisted(h: Host, events: seq<Event>, fingerprint: string)
    requires !Contains(h.shared.paired, fingerprint)
    requires forall i :: 0 <= i < |events| ==> !Approves(Run(h, events[..i]), events[i], fingerprint)
    ensures !Contains(Run(h, events).shared.paired, fingerprint)
    decreases |events|
  {
    if events == [] {
    } else {
      var rest := events[1..];
      assert events[..0] == [];
      assert !Approves(Run(h, events[..0]), events[0], fingerprint);
      forall i | 0 <= i < |rest|
        ensures !Approves(Run(Next(h, events[0]), rest[..i]), rest[i], fingerprint)
      {
        assert events[..i + 1][1..] == rest[..i];
        assert !Approves(Run(h, events[..i + 1]), events[i + 1], fingerprint);
      }
      StaysUnlisted(Next(h, events[0]), rest, fingerprint);
    }
  }

  // What a running loop does on its own, with requests under way coming in: no
  // message from the network and nothing new from the host page.
  predicate IsLocal(e: Event) { e.TakeCommand? || e.Resume? || e.AdminQueueDisconnect? }

  ghost predicate AllLocal(events: seq<Event>) { forall e :: e in events ==> IsLocal(e) }

  // The queue can always be drained: the loop needs no message for it.
  lemma {:induction false} QueueDrains(h: Host) returns (events: seq<Event>)
    requires !h.doing.Stopped? && !h.doing.AwaitingConfig?
    ensures Quiet(Run(h, events)) && AllLocal(events)
    decreases |h.removing|, |h.commands|, if h.doing.Idle? then 0 else if h.doing.Starting? then 1 else 2
  {
    if Quiet(h) {
      events := [];
    } else {
      var e :=
        if !h.doing.Idle? then Resume(true)
        else if h.removing != [] then AdminQueueDisconnect(0)
        else TakeCommand(true, 0);
      var rest := QueueDrains(Next(h, e));
      events := [e] + rest;
      assert events[1..] == rest;
    }
  }
}
