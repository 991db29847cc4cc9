// The limits of what the session loop guarantees: when the removal of a device
// can end its service, and what goes wrong without the hypotheses.
module SessionLimits {
  import opened Wrappers
  import opened Devices
  import opened SessionHost

  // ------------------------------------------ when a removal can end the service

  // A connection whose answer from the device has been applied.
  predicate Applied(h: Host, c: nat, fingerprint: string) {
    c < |h.connections| && h.connections[c].open && h.connections[c].applied == Some(fingerprint)
  }

  // The connection is going to be closed, on its device's account or anyway.
  predicate Ending(h: Host, c: nat, fingerprint: string) {
    DisconnectComing(h, fingerprint) || h.doing == ClosingRemoved(c) || h.doing == ClosingOld(c)
  }

  // The host serves the device, and no other waits.
  ghost predicate Serving(h: Host, c: nat, fingerprint: string) {
    Orderly(h) && h.answers <= 1 && h.pending.None? && !h.doing.Stopped? && Applied(h, c, fingerprint)
  }

  // Without any message from outside the service can come to an end.
  ghost predicate CanEndService(h: Host, c: nat, fingerprint: string) {
    exists events :: AllLocal(events) && !Applied(Run(h, events), c, fingerprint)
  }

  // A local step of a serving host either ends the service or leaves it as
  // likely to end as it was.
  lemma ServingStep(h: Host, e: Event, c: nat, fingerprint: string)
    requires Serving(h, c, fingerprint) && IsLocal(e)
    ensures
      var n := Next(h, e);
      && Orderly(n) && n.answers <= 1 && n.pending.None? && !n.doing.Stopped?
      && (Applied(n, c, fingerprint) ==> (Ending(n, c, fingerprint) <==> Ending(h, c, fingerprint)))
      && (!Applied(n, c, fingerprint) ==> Ending(h, c, fingerprint))
  {
    assert Serves(h, c, fingerprint);
    match e
    case TakeCommand(saved, now) => ServingTake(h, saved, now, c, fingerprint);
    case Resume(ok) => ServingResume(h, ok, c, fingerprint);
    case AdminQueueDisconnect(i) => ServingQueue(h, i, c, fingerprint);
  }

  lemma ServingTake(h: Host, saved: bool, now: nat, c: nat, fingerprint: string)
    requires Serving(h, c, fingerprint) && Serves(h, c, fingerprint)
    ensures
      var n := Next(h, TakeCommand(saved, now));
      && Orderly(n) && n.answers <= 1 && n.pending.None? && !n.doing.Stopped?
      && Applied(n, c, fingerprint) && (Ending(n, c, fingerprint) <==> Ending(h, c, fingerprint))
  {
    var n := Next(h, TakeCommand(saved, now));
    assert n.answers == h.answers;
    OrderlyStep(h, TakeCommand(saved, now));
    if h.doing.Idle? && h.commands != [] {
      assert h.commands == [h.commands[0]] + h.commands[1..];
      assert h.shared.active == Some(Active(fingerprint, c));
    }
  }

  lemma ServingResume(h: Host, ok: bool, c: nat, fingerprint: string)
    requires Serving(h, c, fingerprint) && Serves(h, c, fingerprint)
    ensures
      var n := Next(h, Resume(ok));
      && Orderly(n) && n.answers <= 1 && n.pending.None? && !n.doing.Stopped?
      && (Applied(n, c, fingerprint) ==> (Ending(n, c, fingerprint) <==> Ending(h, c, fingerprint)))
      && (!Applied(n, c, fingerprint) ==> Ending(h, c, fingerprint))
  {
    OrderlyStep(h, Resume(ok));
  }

  lemma ServingQueue(h: Host, i: nat, c: nat, fingerprint: string)
    requires Serving(h, c, fingerprint) && Serves(h, c, fingerprint)
    ensures
      var n := Next(h, AdminQueueDisconnect(i));
      && Orderly(n) && n.answers <= 1 && n.pending.None? && !n.doing.Stopped?
      && Applied(n, c, fingerprint) && (Ending(n, c, fingerprint) <==> Ending(h, c, fingerprint))
  {
    OrderlyStep(h, AdminQueueDisconnect(i));
    if i < |h.removing| {
      assert h.removing == h.removing[..i] + [h.removing[i]] + h.removing[i + 1..];
    }
  }

  // Wherever service goes, no other device waits.
  lemma ServingHasNoPending(h: Host, c: nat, fingerprint: string)
    requires Orderly(h) && Applied(h, c, fingerprint)
    ensures h.pending.None?
  {
    assert Serves(h, c, fingerprint);
  }

  // A loop that has ended does nothing any more, whatever the host page sends.
  lemma {:induction false} StoppedForEver(h: Host, events: seq<Event>)
    requires h.doing.Stopped? && h.commands == []
    ensures Run(h, events).doing.Stopped? && Run(h, events).connections == h.connections
    decreases |events|
  {
    if events == [] {
    } else {
      StoppedForEver(Next(h, events[0]), events[1..]);
    }
  }

  // Nothing local ends the service of a connection that is not going to be
  // closed.
  lemma {:induction false} ServiceGoesOn(h: Host, events: seq<Event>, c: nat, fingerprint: string)
    requires Serving(h, c, fingerprint) && !Ending(h, c, fingerprint) && AllLocal(events)
    ensures Applied(Run(h, events), c, fingerprint)
    decreases |events|
  {
    if events == [] {
    } else {
      assert IsLocal(events[0]);
      ServingStep(h, events[0], c, fingerprint);
      ServiceGoesOn(Next(h, events[0]), events[1..], c, fingerprint);
    }
  }

  // Draining the queue ends it on the way otherwise.
  lemma {:induction false} DrainingEndsService(h: Host, events: seq<Event>, c: nat, fingerprint: string)
    returns (shorter: seq<Event>)
    requires Serving(h, c, fingerprint) && Ending(h, c, fingerprint) && AllLocal(events) && Quiet(Run(h, events))
    ensures AllLocal(shorter) && !Applied(Run(h, shorter), c, fingerprint)
    decreases |events|
  {
    assert events != [];
    var e, n := events[0], Next(h, events[0]);
    assert IsLocal(e);
    ServingStep(h, e, c, fingerprint);
    if Applied(n, c, fingerprint) {
      var rest := DrainingEndsService(n, events[1..], c, fingerprint);
      shorter := [e] + rest;
      assert shorter[1..] == rest;
    } else {
      shorter := [e];
      assert shorter[1..] == [];
      assert Run(h, shorter) == Run(n, []);
    }
  }

  lemma RemovalKeepsServing(h: Host, fingerprint: string, c: nat, saved: bool)
    requires Orderly(h) && h.answers <= 1 && Applied(h, c, fingerprint) && !h.doing.Stopped?
    ensures
      var n := Next(h, AdminRemove(fingerprint, saved));
      && Serving(n, c, fingerprint) && !n.doing.AwaitingConfig?
      && (Ending(n, c, fingerprint) <==>
            Ending(h, c, fingerprint) || (saved && Contains(h.shared.paired, fingerprint)))
  {
    assert Serves(h, c, fingerprint);
    OrderlyStep(h, AdminRemove(fingerprint, saved));
    ServingHasNoPending(h, c, fingerprint);
  }

  // After a removal the running loop can end the device's service by itself
  // exactly when the removal was of a listed device and saved, or the
  // connection was going to be closed anyway. After the loop has ended it
  // cannot.
  lemma RemovalEndsServiceExactlyWhen(h: Host, fingerprint: string, c: nat, saved: bool)
    requires Orderly(h) && h.answers <= 1 && Applied(h, c, fingerprint)
    ensures
      CanEndService(Next(h, AdminRemove(fingerprint, saved)), c, fingerprint) <==>
        !h.doing.Stopped? && ((saved && Contains(h.shared.paired, fingerprint)) || Ending(h, c, fingerprint))
  {
    var removed := Next(h, AdminRemove(fingerprint, saved));
    if h.doing.Stopped? {
      forall events | AllLocal(events)
        ensures Applied(Run(removed, events), c, fingerprint)
      {
        StoppedForEver(removed, events);
      }
    } else {
      RemovalKeepsServing(h, fingerprint, c, saved);
      if Ending(removed, c, fingerprint) {
        var events := QueueDrains(removed);
        var shorter := DrainingEndsService(removed, events, c, fingerprint);
        assert AllLocal(shorter) && !Applied(Run(removed, shorter), c, fingerprint);
      } else {
        forall events | AllLocal(events)
          ensures Applied(Run(removed, events), c, fingerprint)
        {
          ServiceGoesOn(removed, events, c, fingerprint);
        }
      }
    }
  }

  // ------------------------------------------ what the hypotheses are needed for

  function Two(h: Host, a: Event, b: Event): Host { Next(Next(h, a), b) }

  function Four(h: Host, a: Event, b: Event, c: Event, d: Event): Host { Two(Two(h, a, b), c, d) }

  // A removal from a quiet host cuts the device off exactly when its save
  // succeeds: after a failed one no Disconnect is queued.
  lemma RemovalCutsOffExactlyWhenSaved(h: Host, fingerprint: string, c: nat, saved: bool)
    requires Orderly(h) && Quiet(h) && Contains(h.shared.paired, fingerprint) && Serves(h, c, fingerprint)
    ensures
      var queued := Two(h, AdminRemove(fingerprint, saved), AdminQueueDisconnect(0));
      var after := Two(queued, TakeCommand(true, 0), Resume(true));
      Quiet(after) && !Contains(after.shared.paired, fingerprint) && (Serves(after, c, fingerprint) <==> !saved)
  {
    assert h.shared.active == Some(Active(fingerprint, c));
  }

  // What a second answer in the same session leads to: one connection serves
  // the paired device `a`, and the unpaired device `b` waits for approval.
  predicate ServesOneWhileOneWaits(h: Host, a: string, b: string) {
    && Quiet(h) && h.current == Some(0) && h.connections == [Connection(h.session, true, Some(a))]
    && h.shared.active == Some(Active(a, 0))
    && h.pending.Some? && h.pending.value.session == h.session && h.pending.value.fingerprint == b
    && h.shared.pending == Some(b)
    && Contains(h.shared.paired, a) && !Contains(h.shared.paired, b)
  }

  function FirstOffer(paired: seq<PairedDevice>): Host {
    Host(1, Some(0), None, Shared(paired, None, None), [], [], [Connection(1, true, None)], Idle, 0)
  }

  lemma FirstOfferIsReached(paired: seq<PairedDevice>)
    ensures Four(Fresh(paired), Receive(Config, true, 0), Receive(ViewerJoined, true, 0), Resume(true), Resume(true))
      == FirstOffer(paired)
  {
  }

  // A host that serves the listed device `a` on its first connection.
  function ServingFirst(paired: seq<PairedDevice>, a: string, sdp: string): Host {
    Two(FirstOffer(paired), Receive(Answer(1, sdp, Some(a)), true, 0), Resume(true))
  }

  // The host page has removed the device, and it is served for ever.
  ghost predicate ServedForEver(h: Host, c: nat, a: string) {
    !Contains(h.shared.paired, a) && forall events :: Applied(Run(h, events), c, a)
  }

  // If the link to the hub is lost, before the removal or after it, all saves
  // succeeding, the device stays connected for ever.
  lemma LostLinkLosesTheRemoval(paired: seq<PairedDevice>, a: string, sdp: string)
    requires Contains(paired, a)
    ensures
      var served := ServingFirst(paired, a, sdp);
      && Quiet(served) && Applied(served, 0, a)
      && ServedForEver(Next(Two(served, LinkLost, AdminRemove(a, true)), AdminQueueDisconnect(0)), 0, a)
      && ServedForEver(Next(Two(served, AdminRemove(a, true), AdminQueueDisconnect(0)), LinkLost), 0, a)
  {
    var served := ServingFirst(paired, a, sdp);
    assert served.connections == [Connection(1, true, Some(a))] && Quiet(served);
    var first := Next(Two(served, LinkLost, AdminRemove(a, true)), AdminQueueDisconnect(0));
    var last := Next(Two(served, AdminRemove(a, true), AdminQueueDisconnect(0)), LinkLost);
    forall events
      ensures Applied(Run(first, events), 0, a) && Applied(Run(last, events), 0, a)
    {
      StoppedForEver(first, events);
      StoppedForEver(last, events);
    }
  }

  lemma TwoAnswersLeadThere(paired: seq<PairedDevice>, first: string, second: string, a: string, b: string)
    returns (h: Host)
    requires Contains(paired, a) && !Contains(paired, b)
    ensures h == Next(Two(FirstOffer(paired), Receive(Answer(1, first, Some(a)), true, 0), Resume(true)),
                      Receive(Answer(1, second, Some(b)), true, 0))
    ensures ServesOneWhileOneWaits(h, a, b)
  {
    var served := Two(FirstOffer(paired), Receive(Answer(1, first, Some(a)), true, 0), Resume(true));
    assert served.connections == [Connection(1, true, Some(a))] && served.doing.Idle?;
    h := Next(served, Receive(Answer(1, second, Some(b)), true, 0));
  }

  // Approving the second device relabels `active`,
  lemma SecondApproved(h: Host, a: string, b: string) returns (approved: Host)
    requires ServesOneWhileOneWaits(h, a, b)
    ensures approved == Next(Two(h, AdminApprove(b, "x"), TakeCommand(true, 0)), Resume(false))
    ensures Quiet(approved) && approved.connections == h.connections && approved.shared.active == Some(Active(b, 0))
    ensures Contains(approved.shared.paired, a)
  {
    approved := Next(Two(h, AdminApprove(b, "x"), TakeCommand(true, 0)), Resume(false));
  }

  // so removing the first one afterwards closes nothing.
  lemma ApproveRelabels(h: Host, a: string, b: string)
    requires ServesOneWhileOneWaits(h, a, b)
    ensures
      var approved := Next(Two(h, AdminApprove(b, "x"), TakeCommand(true, 0)), Resume(false));
      var after := Next(Two(approved, AdminRemove(a, true), AdminQueueDisconnect(0)), TakeCommand(true, 0));
      Quiet(after) && !Contains(after.shared.paired, a) && Serves(after, 0, a)
  {
    var approved := SecondApproved(h, a, b);
    var removed := Two(approved, AdminRemove(a, true), AdminQueueDisconnect(0));
    assert removed.commands == [Disconnect(a)] && removed.shared.active == Some(Active(b, 0));
  }

  // Rejecting the second device closes the connection but leaves `active`.
  lemma RejectLeavesActive(h: Host, a: string, b: string)
    requires ServesOneWhileOneWaits(h, a, b)
    ensures
      var after := Next(Two(h, AdminReject(b), TakeCommand(true, 0)), Resume(true));
      Quiet(after) && after.shared.active == Some(Active(a, 0)) && after.current.None? && !after.connections[0].open
  {
  }

  // Disconnecting the first device and then approving the second leaves the
  // host page showing an answer the loop no longer holds.
  lemma ApproveLeavesPendingShown(h: Host, a: string, b: string)
    requires ServesOneWhileOneWaits(h, a, b)
    ensures
      var cut := Four(h, AdminRemove(a, true), AdminQueueDisconnect(0), TakeCommand(true, 0), Resume(true));
      var after := Two(cut, AdminApprove(b, "x"), TakeCommand(true, 0));
      Quiet(after) && after.pending.None? && after.shared.pending == Some(b)
  {
    var queued := Two(h, AdminRemove(a, true), AdminQueueDisconnect(0));
    assert queued.commands == [Disconnect(a)] && queued.shared.active == h.shared.active;
    var cut := Two(queued, TakeCommand(true, 0), Resume(true));
    assert Quiet(cut) && cut.current.None? && cut.pending == h.pending;
  }

  // The steps that break these properties, and exactly when they do.
  lemma ApproveKeepsServedIsActiveExactlyWhen(h: Host, fingerprint: string, name: string, now: nat)
    requires Consistent(h) && h.doing.Idle? && ServedIsActive(h) && h.current.Some?
    requires h.pending.Some? && h.pending.value.fingerprint == fingerprint
    ensures
      var applied := h.connections[h.current.value].applied;
      ServedIsActive(OnApprove(h, fingerprint, name, true, now)) <==> applied.None? || applied == Some(fingerprint)
  {
    var c := h.current.value;
    var n := OnApprove(h, fingerprint, name, true, now);
    if h.connections[c].applied.Some? {
      assert Serves(n, c, h.connections[c].applied.value);
    }
  }

  lemma RejectKeepsActiveIsCurrentExactlyWhen(h: Host, fingerprint: string)
    requires Consistent(h) && h.doing.Idle? && h.pending.Some? && h.pending.value.fingerprint == fingerprint
    ensures ActiveIsCurrent(OnReject(h, fingerprint)) <==> h.shared.active.None?
  {
  }

  lemma ApproveKeepsPendingIsShownExactlyWhen(h: Host, fingerprint: string, name: string, now: nat)
    requires Consistent(h) && h.doing.Idle? && PendingIsShown(h)
    requires h.pending.Some? && h.pending.value.fingerprint == fingerprint
    ensures PendingIsShown(OnApprove(h, fingerprint, name, true, now)) <==> h.current.Some?
  {
  }
}
