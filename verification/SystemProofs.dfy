// What holds in every run of host, hub and pages.
module SystemProofs {
  import opened Wrappers
  import opened Devices
  import H = SessionHost
  import L = SessionLimits
  import opened Hub
  import opened System
  import opened SystemInv
  import opened SystemOrder

  // ------------------------------------------------------------- runs

  ghost predicate OneHostRun(events: seq<SysEvent>) {
    forall e :: e in events ==> !e.HostRestarts?
  }

  // At no point of the run have the session numbers run out.
  ghost predicate AlwaysInRange(s: Sys, events: seq<SysEvent>)
    decreases |events|
  {
    InRange(s) && (events != [] ==> AlwaysInRange(SysNext(s, events[0]), events[1..]))
  }

  lemma HoldersGrow(s: Sys, e: SysEvent)
    requires !e.HostRestarts?
    ensures s.run.holders <= SysNext(s, e).run.holders
  {
  }

  // In one host run the count of sessions only grows.
  lemma {:induction false} InRangeThroughout(s: Sys, events: seq<SysEvent>)
    requires OneHostRun(events) && InRange(SysRun(s, events))
    ensures AlwaysInRange(s, events) && s.run.holders <= SysRun(s, events).run.holders
    decreases |events|
  {
    if events == [] {
    } else {
      assert !events[0].HostRestarts?;
      HoldersGrow(s, events[0]);
      InRangeThroughout(SysNext(s, events[0]), events[1..]);
    }
  }

  // The invariant holds in every state that can be reached, with the host
  // restarted any number of times.
  lemma {:induction false} InvRun(s: Sys, events: seq<SysEvent>)
    requires Inv(s) && Delivered(s) && AlwaysInRange(s, events)
    ensures Inv(SysRun(s, events)) && Delivered(SysRun(s, events))
    decreases |events|
  {
    if events == [] {
    } else {
      InvStep(s, events[0]);
      DeliveredStep(s, events[0]);
      InvRun(SysNext(s, events[0]), events[1..]);
    }
  }

  // And in one host run, everything happens in order.
  lemma {:induction false} OrderedRun(s: Sys, events: seq<SysEvent>)
    requires Inv(s) && Ordered(s) && OneHostRun(events) && AlwaysInRange(s, events)
    ensures Inv(SysRun(s, events)) && Ordered(SysRun(s, events))
    decreases |events|
  {
    if events == [] {
    } else {
      assert !events[0].HostRestarts?;
      InvStep(s, events[0]);
      OrderedStep(s, events[0]);
      OrderedRun(SysNext(s, events[0]), events[1..]);
    }
  }

  // A state that can be reached, and what is known of it.
  lemma Reached(paired: seq<PairedDevice>, events: seq<SysEvent>) returns (s: Sys)
    requires AlwaysInRange(Start(paired), events)
    ensures s == SysRun(Start(paired), events) && Inv(s) && Delivered(s)
  {
    InvStart(paired);
    InvRun(Start(paired), events);
    s := SysRun(Start(paired), events);
  }

  lemma ReachedInOneRun(paired: seq<PairedDevice>, events: seq<SysEvent>) returns (s: Sys)
    requires OneHostRun(events) && InRange(SysRun(Start(paired), events))
    ensures s == SysRun(Start(paired), events) && Inv(s) && Ordered(s)
  {
    InvStart(paired);
    OrderedStart(paired);
    InRangeThroughout(Start(paired), events);
    OrderedRun(Start(paired), events);
    s := SysRun(Start(paired), events);
  }

  // ------------------------------------------------------------- which answers are accepted

  // The host is about to read an answer with its current session's number.
  predicate AboutToAccept(s: Sys) {
    s.host.doing.Idle? && ToHost(s) != [] && IsAnswer(ToHost(s)[0]) && ToHost(s)[0].body.session == s.host.session
  }

  // The answer was made from the offer of the connection it will be applied
  // to, and sent by the viewer that held the slot when that session was
  // announced.
  ghost predicate FromTheHolder(s: Sys, answer: Body)
    requires answer.AnswerBody?
  {
    && answer.run == s.run.number
    && 1 <= answer.session <= |s.run.holders| && answer.viewer == s.run.holders[answer.session - 1]
    && (s.host.current.Some? ==>
          && s.host.current.value < |s.host.connections|
          && s.host.connections[s.host.current.value].offer == answer.session)
  }

  lemma FirstAnswer(s: Sys)
    requires Inv(s) && s.host.doing.Idle? && ToHost(s) != [] && Current(ToHost(s)[0], s.run)
    ensures
      var b := ToHost(s)[0].body;
      && b.AnswerBody? && 1 <= b.session <= |s.run.holders|
      && (s.run.holders[b.session - 1] == b.viewer || b.session < s.host.session)
  {
    assert ToHost(s)[..0] == [];
    assert Outdated(ToHost(s), 0, s.run, Base(s.host));
  }

  lemma AcceptedFromTheHolder(s: Sys)
    requires Inv(s) && AboutToAccept(s)
    ensures ToHost(s)[0].body.run < s.run.number || FromTheHolder(s, ToHost(s)[0].body)
  {
    if Current(ToHost(s)[0], s.run) {
      FirstAnswer(s);
    }
  }

  // Whatever was restarted before: an answer the host is about to accept is
  // the holder's, made from this session's offer, or it was made from an offer
  // of an earlier host run.
  lemma AcceptedAnswerIsTheHolders(paired: seq<PairedDevice>, events: seq<SysEvent>)
    requires AlwaysInRange(Start(paired), events) && AboutToAccept(SysRun(Start(paired), events))
    ensures
      var s := SysRun(Start(paired), events);
      var answer := ToHost(s)[0].body;
      answer.run < s.run.number || FromTheHolder(s, answer)
  {
    var s := Reached(paired, events);
    AcceptedFromTheHolder(s);
  }

  // In one host run, the second case does not exist.
  lemma AcceptedAnswerInOneRun(paired: seq<PairedDevice>, events: seq<SysEvent>)
    requires OneHostRun(events) && InRange(SysRun(Start(paired), events))
    requires AboutToAccept(SysRun(Start(paired), events))
    ensures var s := SysRun(Start(paired), events); FromTheHolder(s, ToHost(s)[0].body)
  {
    var s := ReachedInOneRun(paired, events);
    InRangeThroughout(Start(paired), events);
    AcceptedAnswerIsTheHolders(paired, events);
  }

  // What becomes of the first answer on the link when the host reads it.
  ghost predicate DroppedUnlessTheHolders(s: Sys, fp: Option<string>, saved: bool, now: nat)
    requires ToHost(s) != [] && ToHost(s)[0].RelayedFrame?
  {
    var answer := ToHost(s)[0].body;
    && answer.AnswerBody? && 1 <= answer.session <= |s.run.holders|
    && (answer.viewer != s.run.holders[answer.session - 1] ==> SysNext(s, HostReads(fp, saved, now)).host == s.host)
  }

  lemma OtherAnswerIsDropped(s: Sys, fp: Option<string>, saved: bool, now: nat)
    requires Inv(s) && s.host.doing.Idle? && ToHost(s) != [] && Current(ToHost(s)[0], s.run)
    ensures DroppedUnlessTheHolders(s, fp, saved, now)
  {
    FirstAnswer(s);
  }

  // An answer of this run from any other viewer is dropped when the host comes
  // to it.
  lemma OtherAnswersAreDropped(paired: seq<PairedDevice>, events: seq<SysEvent>,
                               fp: Option<string>, saved: bool, now: nat)
    requires AlwaysInRange(Start(paired), events)
    requires
      var s := SysRun(Start(paired), events);
      s.host.doing.Idle? && ToHost(s) != [] && Current(ToHost(s)[0], s.run)
    ensures DroppedUnlessTheHolders(SysRun(Start(paired), events), fp, saved, now)
  {
    var s := Reached(paired, events);
    OtherAnswerIsDropped(s, fp, saved, now);
  }

  // ------------------------------------------------------------- offers arrive

  // The offer of the current connection has been relayed or is the last on the
  // link to the hub; the newest offer relayed, if no viewer was announced
  // since, went to the viewer in the slot.
  ghost predicate Delivered(s: Sys) {
    && OfferIsOut(s.host, s.hostOut, s.run)
    && (HostReading(s) && s.hub.viewer.Some? ==> ReachedBy(s.run, s.hub.viewer.value.number))
  }

  ghost predicate OfferIsOut(h: H.Host, out: seq<Body>, r: Run) {
    h.current.Some? ==> r.relayed == h.session || (out != [] && out[|out| - 1].session == h.session)
  }

  ghost predicate ReachedBy(r: Run, v: nat) {
    r.relayed == |r.holders| ==> r.relayed in r.reached && r.reached[r.relayed] == v
  }

  // A connection becomes current only when its session starts.
  lemma CurrentIsStarted(h: H.Host, e: H.Event)
    requires H.Consistent(h) && H.Next(h, e).current.Some?
    ensures H.Next(h, e).session == h.session
    ensures h.current.Some? || (h.doing.Starting? && e == H.Resume(true))
  {
  }

  lemma HostStepsDelivered(s: Sys, e: H.Event, sdp: string)
    requires Inv(s) && Delivered(s) && !e.Receive?
    ensures Delivered(OnHostSteps(s, e, sdp))
  {
    if H.Next(s.host, e).current.Some? {
      CurrentIsStarted(s.host, e);
    }
  }

  lemma HostReadsDelivered(s: Sys, fp: Option<string>, saved: bool, now: nat)
    requires Inv(s) && Delivered(s) && ToHost(s) != []
    ensures Delivered(OnHostReads(s, fp, saved, now))
  {
    var e := H.Receive(AsMessage(ToHost(s)[0], fp), saved, now);
    if H.Next(s.host, e).current.Some? {
      CurrentIsStarted(s.host, e);
    }
  }

  lemma HubReadsHostDelivered(s: Sys)
    requires Inv(s) && Delivered(s) && HostReading(s) && s.hostOut != []
    ensures Delivered(OnHubReadsHost(s))
  {
    RelayedOfferMoves(s.run, s.hostOut[0], s.hub.viewer);
  }

  lemma ViewerConnectsDelivered(s: Sys, key: Option<string>)
    requires Inv(s) && Delivered(s)
    ensures Delivered(SysNext(s, ViewerConnects(key)))
  {
    var n := ViewerConnectsShape(s, key);
  }

  lemma HostConnectsDelivered(s: Sys)
    requires Inv(s) && Delivered(s)
    ensures Delivered(SysNext(s, HostConnects))
  {
    if !s.registered {
      var link := HostConnectsLink(s);
      HostConnectsKeepsSlots(s, link);
    }
  }

  // The other events change none of what it is about.
  ghost predicate SameDelivery(s: Sys, n: Sys) {
    && n.host == s.host && n.hostOut == s.hostOut && n.run.number == s.run.number
    && n.run.holders == s.run.holders && n.run.relayed == s.run.relayed && n.run.reached == s.run.reached
    && (n.hub.host == s.hub.host || n.hub.host.None?) && (n.hub.viewer == s.hub.viewer || n.hub.viewer.None?)
  }

  lemma PageEventsSameDelivery(s: Sys, e: SysEvent)
    requires e.PageReads? || e.PageResumes? || e.PageThrows? || e.PageLocal?
    ensures SameDelivery(s, SysNext(s, e))
  {
  }

  lemma HubEventsSameDelivery(s: Sys, e: SysEvent)
    requires e.HostLeaves? || e.OldHostSends? || e.OldHostLeaves?
          || e.ViewerLeaves? || e.HubReadsLate? || e.HubReadsViewer?
    ensures SameDelivery(s, SysNext(s, e))
  {
  }

  lemma OtherEventsDelivered(s: Sys, e: SysEvent)
    requires Delivered(s)
    requires !e.HostConnects? && !e.HostReads? && !e.HostSteps? && !e.HostRestarts?
    requires !e.ViewerConnects? && !e.HubReadsHost?
    ensures Delivered(SysNext(s, e))
  {
    if e.PageReads? || e.PageResumes? || e.PageThrows? || e.PageLocal? {
      PageEventsSameDelivery(s, e);
    } else {
      HubEventsSameDelivery(s, e);
    }
    var n := SysNext(s, e);
    assert SameDelivery(s, n);
  }

  lemma DeliveredStep(s: Sys, e: SysEvent)
    requires Inv(s) && Delivered(s)
    ensures Delivered(SysNext(s, e))
  {
    match e
    case HostConnects => HostConnectsDelivered(s);
    case HostReads(fp, saved, now) => if ToHost(s) != [] { HostReadsDelivered(s, fp, saved, now); }
    case HostSteps(event, sdp) => if !event.Receive? { HostStepsDelivered(s, event, sdp); }
    case HostRestarts(paired) =>
    case ViewerConnects(key) => ViewerConnectsDelivered(s, key);
    case HubReadsHost => if HostReading(s) && s.hostOut != [] { HubReadsHostDelivered(s); }
    case _ => OtherEventsDelivered(s, e);
  }

  // With both present, nothing on the links between host and hub, and the host
  // waiting with a session that started: that session is the one announced for
  // the viewer in the slot, and its offer was relayed to that viewer.
  lemma ViewerGetsItsOffer(paired: seq<PairedDevice>, events: seq<SysEvent>)
    requires AlwaysInRange(Start(paired), events)
    requires
      var s := SysRun(Start(paired), events);
      && HostReading(s) && s.hub.viewer.Some? && ToHost(s) == [] && s.hostOut == []
      && s.host.doing.Idle? && s.host.current.Some?
    ensures
      var s := SysRun(Start(paired), events);
      var n, v := s.host.session, s.hub.viewer.value.number;
      && n == |s.run.holders| && n >= 1 && s.run.holders[n - 1] == v
      && n in s.run.reached && s.run.reached[n] == v
      && s.host.current.value < |s.host.connections|
      && s.host.connections[s.host.current.value].open && s.host.connections[s.host.current.value].offer == n
  {
    var s := Reached(paired, events);
  }

  // ------------------------------------------------------------- one host run

  // No session gets a second answer, so the host's view is never muddled.
  lemma HostIsOrderly(paired: seq<PairedDevice>, events: seq<SysEvent>)
    requires OneHostRun(events) && InRange(SysRun(Start(paired), events))
    ensures
      var h := SysRun(Start(paired), events).host;
      h.answers <= 1 && H.PendingIsShown(h) && H.NeverBoth(h) && H.ActiveIsCurrent(h) && H.ServedIsActive(h)
  {
    var s := ReachedInOneRun(paired, events);
  }

  // Every page answers with strictly increasing session numbers.
  lemma PagesAnswerInOrder(paired: seq<PairedDevice>, events: seq<SysEvent>, v: nat, i: nat, j: nat)
    requires OneHostRun(events) && InRange(SysRun(Start(paired), events))
    requires v < |SysRun(Start(paired), events).viewers|
    requires i < j < |SysRun(Start(paired), events).viewers[v].page.sent|
    ensures var sent := SysRun(Start(paired), events).viewers[v].page.sent; sent[i].session < sent[j].session
  {
    var s := ReachedInOneRun(paired, events);
    assert PageOrder(s.viewers[v].page, Stream(s.hub, ViewerConn(v)), s.run.relayed);
  }

  // ------------------------------------------------------- removal, end to end

  ghost predicate RemovalsSave(events: seq<SysEvent>) {
    forall e :: e in events && e.HostSteps? && e.event.AdminRemove? ==> e.event.saved
  }

  lemma AccountedForSysStep(s: Sys, e: SysEvent)
    requires H.Orderly(s.host) && H.ActiveIsAccountedFor(s.host) && !e.HostRestarts?
    requires e.HostSteps? && e.event.AdminRemove? ==> e.event.saved
    ensures H.ActiveIsAccountedFor(SysNext(s, e).host)
  {
    match e
    case HostReads(fp, saved, now) =>
      if ToHost(s) != [] {
        H.AccountedForStep(s.host, H.Receive(AsMessage(ToHost(s)[0], fp), saved, now));
      }
    case HostSteps(event, _) => H.AccountedForStep(s.host, event);
    case _ =>
  }

  lemma {:induction false} AccountedForRun(s: Sys, events: seq<SysEvent>)
    requires Inv(s) && Ordered(s) && H.ActiveIsAccountedFor(s.host)
    requires OneHostRun(events) && RemovalsSave(events) && AlwaysInRange(s, events)
    ensures Ordered(SysRun(s, events)) && H.ActiveIsAccountedFor(SysRun(s, events).host)
    decreases |events|
  {
    if events == [] {
    } else {
      assert !events[0].HostRestarts?;
      InvStep(s, events[0]);
      OrderedStep(s, events[0]);
      AccountedForSysStep(s, events[0]);
      AccountedForRun(SysNext(s, events[0]), events[1..]);
    }
  }

  // With hub, pages and host page all interleaving, and for as long as the loop
  // has not ended, a device the host serves is listed, or a request to
  // disconnect it is on its way; once nothing is queued, a device that is not
  // listed is not served.
  lemma RemovedDevicesAreCutOff(paired: seq<PairedDevice>, events: seq<SysEvent>, c: nat, fingerprint: string)
    requires OneHostRun(events) && RemovalsSave(events) && InRange(SysRun(Start(paired), events))
    ensures
      var h := SysRun(Start(paired), events).host;
      && (!h.doing.Stopped? ==> H.NoneForgotten(h))
      && (H.Quiet(h) && !Contains(h.shared.paired, fingerprint) ==> !H.Serves(h, c, fingerprint))
  {
    InvStart(paired);
    OrderedStart(paired);
    InRangeThroughout(Start(paired), events);
    AccountedForRun(Start(paired), events);
  }

  // Whatever state the system is in: the loop can end the service of a device
  // that has just been removed, and the removal saved, exactly when it has not
  // ended.
  lemma RemovalEndsServiceExactlyWhileRunning(paired: seq<PairedDevice>, events: seq<SysEvent>,
                                              c: nat, fingerprint: string)
    requires OneHostRun(events) && InRange(SysRun(Start(paired), events))
    requires
      var h := SysRun(Start(paired), events).host;
      L.Applied(h, c, fingerprint) && Contains(h.shared.paired, fingerprint)
    ensures
      var h := SysRun(Start(paired), events).host;
      L.CanEndService(H.Next(h, H.AdminRemove(fingerprint, true)), c, fingerprint) <==> !h.doing.Stopped?
  {
    var s := ReachedInOneRun(paired, events);
    L.RemovalEndsServiceExactlyWhen(s.host, fingerprint, c, true);
  }
}
