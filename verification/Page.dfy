// The viewer page's WebSocket handler (client/index.html). The handler is
// asynchronous, so several runs of it can be suspended at once, one per offer;
// each event resumes one of them for the stretch between two awaits.
module Page {
  import opened Wrappers
  import opened Hub

  // The await a handler run is suspended at.
  datatype Stage = SettingRemote | CreatingAnswer | SettingLocal | Gathering

  // One run of the handler: the offer it is for, and its peer connection's
  // record of the host's fingerprint.
  datatype Handler = Handler(session: nat, run: nat, hostFingerprint: string, stage: Stage)

  // `pc` is the current peer connection; peers are numbered as created.
  // `saved` is the host key in the browser's storage, which outlives the page
  // and is shared with every other tab of its origin. `forgetShown` says that
  // the button to forget it is on screen. `sent` collects the answers in the
  // order they were sent.
  datatype PageState = PageState(
    ready: bool,
    pc: Option<nat>,
    peers: nat,
    handlers: map<nat, Handler>,
    fingerprints: map<nat, string>,
    saved: Option<string>,
    forgetShown: bool,
    sent: seq<Body>)

  // `fingerprint` is what the SDP parser finds in the offer's SDP. `sdp` is
  // the answer's local description. `readable` and `writable` say whether an access
  // to the storage works; the page ignores one that does not. Forget is a
  // click on the button, and Stored a change of the storage from outside.
  datatype PageEvent =
    | OnFrame(frame: Frame, fingerprint: Option<string>, readable: bool)
    | Advance(peer: nat, sdp: string, viewer: nat)
    | Throw(peer: nat)
    | Connected(peer: nat, readable: bool, writable: bool)
    | Forget(writable: bool)
    | Stored(value: Option<string>)

  function Opened(saved: Option<string>): PageState {
    PageState(false, None, 0, map[], map[], saved, false, [])
  }

  // `savedHostFingerprint`, with the empty string, which is falsy, as nothing.
  function SavedKey(p: PageState, readable: bool): Option<string> {
    if !readable || p.saved == Some("") then None else p.saved
  }

  // Nothing is saved, or exactly the offer's key.
  predicate Accepts(p: PageState, fingerprint: Option<string>, readable: bool) {
    fingerprint.Some? && (SavedKey(p, readable).None? || SavedKey(p, readable) == fingerprint)
  }

  function OnOffer(p: PageState, session: nat, run: nat, fingerprint: Option<string>, readable: bool): PageState {
    var p1 := p.(pc := None);
    if !Accepts(p, fingerprint, readable) then p1.(forgetShown := true)
    else
      p1.(pc := Some(p.peers),
          peers := p.peers + 1,
          handlers := p.handlers[p.peers := Handler(session, run, fingerprint.value, SettingRemote)],
          fingerprints := p.fingerprints[p.peers := fingerprint.value])
  }

  function OnAdvance(p: PageState, k: nat, sdp: string, viewer: nat): PageState
    requires k in p.handlers
  {
    var h := p.handlers[k];
    var ended := p.(handlers := p.handlers - {k});
    match h.stage
    case SettingRemote => p.(handlers := p.handlers[k := h.(stage := CreatingAnswer)])
    case CreatingAnswer => p.(handlers := p.handlers[k := h.(stage := SettingLocal)])
    case SettingLocal =>
      if p.pc == Some(k) then p.(handlers := p.handlers[k := h.(stage := Gathering)], forgetShown := false) else ended
    case Gathering =>
      if p.pc == Some(k) then ended.(sent := p.sent + [AnswerBody(h.session, sdp, h.run, viewer)]) else ended
  }

  // What does not come from the hub: no handler run is touched.
  predicate IsLocal(e: PageEvent) { e.Connected? || e.Forget? || e.Stored? }

  function OnConnected(p: PageState, k: nat, readable: bool, writable: bool): PageState {
    var p1 := p.(forgetShown := false);
    if SavedKey(p, readable).None? && k in p.fingerprints && writable then p1.(saved := Some(p.fingerprints[k])) else p1
  }

  function PageNext(p: PageState, e: PageEvent): PageState {
    match e
    case OnFrame(ConfigFrame, _, _) => p.(ready := true)
    case OnFrame(RelayedFrame(OfferBody(session, sdp, run)), fingerprint, readable) =>
      if p.ready then OnOffer(p, session, run, fingerprint, readable) else p
    case OnFrame(_, _, _) => p
    case Advance(k, sdp, viewer) => if k in p.handlers then OnAdvance(p, k, sdp, viewer) else p
    case Throw(k) => p.(handlers := p.handlers - {k})
    case Connected(k, readable, writable) => if p.pc == Some(k) then OnConnected(p, k, readable, writable) else p
    case Forget(writable) => if p.forgetShown && writable then p.(saved := None) else p
    case Stored(value) => p.(saved := value)
  }

  class ViewerPage {
    var ready: bool
    var pc: Option<nat>
    var peers: nat
    var handlers: map<nat, Handler>
    var fingerprints: map<nat, string>
    var saved: Option<string>
    var forgetShown: bool
    var sent: seq<Body>

    ghost function State(): PageState
      reads this
    {
      PageState(ready, pc, peers, handlers, fingerprints, saved, forgetShown, sent)
    }

    constructor (saved: Option<string>)
      ensures State() == Opened(saved)
    {
      ready, pc, peers := false, None, 0;
      handlers, fingerprints := map[], map[];
      this.saved := saved;
      forgetShown := false;
      sent := [];
    }

    // `savedHostFingerprint`; a storage that throws gives null.
    method SavedHostFingerprint(readable: bool) returns (r: Option<string>)
      ensures r == if readable then saved else None
    {
      if !readable {
        return None;
      }
      return saved;
    }

    // `saveHostFingerprint`; a storage that throws is left as it was.
    method SaveHostFingerprint(fp: string, writable: bool)
      modifies this`saved
      ensures saved == if writable then Some(fp) else old(saved)
    {
      if writable {
        saved := Some(fp);
      }
    }

    // The part of `onmessage` before its first await.
    method OnMessage(frame: Frame, fingerprint: Option<string>, readable: bool)
      modifies this
      ensures State() == PageNext(old(State()), OnFrame(frame, fingerprint, readable))
    {
      if frame.ConfigFrame? {
        ready := true;
        return;
      }
      if !frame.RelayedFrame? || !frame.body.OfferBody? || !ready {
        return;
      }
      pc := None;
      var savedFp := SavedHostFingerprint(readable);
      if fingerprint.None? || (savedFp.Some? && savedFp.value != "" && savedFp != fingerprint) {
        forgetShown := true;
        return;
      }
      var peer := peers;
      peers := peers + 1;
      fingerprints := fingerprints[peer := fingerprint.value];
      pc := Some(peer);
      handlers := handlers[peer := Handler(frame.body.session, frame.body.run, fingerprint.value, SettingRemote)];
    }

    // The rest of it, one await at a time.
    method Resume(peer: nat, sdp: string, viewer: nat)
      modifies this
      ensures State() == PageNext(old(State()), Advance(peer, sdp, viewer))
    {
      if peer !in handlers {
        return;
      }
      var run := handlers[peer];
      match run.stage
      case SettingRemote => handlers := handlers[peer := run.(stage := CreatingAnswer)];
      case CreatingAnswer => handlers := handlers[peer := run.(stage := SettingLocal)];
      case SettingLocal =>
        if pc != Some(peer) {
          handlers := handlers - {peer};
          return;
        }
        forgetShown := false;
        handlers := handlers[peer := run.(stage := Gathering)];
      case Gathering =>
        handlers := handlers - {peer};
        if pc != Some(peer) {
          return;
        }
        sent := sent + [AnswerBody(run.session, sdp, run.run, viewer)];
    }

    method OnConnected(peer: nat, readable: bool, writable: bool)
      modifies this`saved, this`forgetShown
      ensures State() == PageNext(old(State()), Connected(peer, readable, writable))
    {
      if pc == Some(peer) {
        var savedFp := SavedHostFingerprint(readable);
        if (savedFp.None? || savedFp.value == "") && peer in fingerprints {
          SaveHostFingerprint(fingerprints[peer], writable);
        }
        forgetShown := false;
      }
    }

    // A click on the button; the reload that follows opens another page, and
    // this one goes on until it is unloaded.
    method OnForget(writable: bool)
      modifies this`saved
      ensures State() == PageNext(old(State()), Forget(writable))
    {
      if forgetShown && writable {
        saved := None;
      }
    }
  }

  // ------------------------------------------------------ answers come in order

  // Everything the page has handled or is handling is older than session `n`.
  ghost predicate Below(p: PageState, n: nat) {
    && (forall k :: k in p.handlers ==> p.handlers[k].session < n)
    && forall i :: 0 <= i < |p.sent| ==> p.sent[i].session < n
  }

  ghost predicate InOrder(p: PageState) {
    && (p.pc.Some? ==> p.pc.value < p.peers)
    && (forall k :: k in p.handlers ==>
          k < p.peers && k in p.fingerprints && p.fingerprints[k] == p.handlers[k].hostFingerprint)
    // Sessions answered so far are strictly increasing, so no offer is
    // answered twice.
    && (forall i, j :: 0 <= i < j < |p.sent| ==> p.sent[i].session < p.sent[j].session)
    // Only the current peer may still answer, and its offer is newer.
    && (p.pc.Some? && p.pc.value in p.handlers ==>
          forall i :: 0 <= i < |p.sent| ==> p.sent[i].session < p.handlers[p.pc.value].session)
  }

  predicate IsOffer(e: PageEvent) { e.OnFrame? && e.frame.RelayedFrame? && e.frame.body.OfferBody? }

  // However the runs of the handler interleave, as long as the offers come
  // with increasing numbers.
  lemma AnswersStayInOrder(p: PageState, e: PageEvent)
    requires InOrder(p)
    requires IsOffer(e) ==> Below(p, e.frame.body.session)
    ensures InOrder(PageNext(p, e))
  {
    match e
    case OnFrame(RelayedFrame(OfferBody(session, sdp, run)), fingerprint, readable) =>
      OfferInOrder(p, session, run, fingerprint, readable);
    case Advance(k, sdp, viewer) =>
      if k in p.handlers {
        AdvanceInOrder(p, k, sdp, viewer);
      }
    case _ =>
  }

  lemma OfferInOrder(p: PageState, session: nat, run: nat, fingerprint: Option<string>, readable: bool)
    requires InOrder(p) && Below(p, session)
    ensures InOrder(OnOffer(p, session, run, fingerprint, readable))
  {
  }

  predicate SameOffer(h: Handler, g: Handler) {
    h.session == g.session && h.run == g.run && h.hostFingerprint == g.hostFingerprint
  }

  // A handler run goes on with its offer.
  lemma StageInOrder(p: PageState, n: PageState, k: nat)
    requires InOrder(p) && k in p.handlers && k in n.handlers
    requires n == p.(handlers := p.handlers[k := n.handlers[k]], forgetShown := n.forgetShown)
    requires SameOffer(p.handlers[k], n.handlers[k])
    ensures InOrder(n)
  {
  }

  lemma EndInOrder(p: PageState, k: nat)
    requires InOrder(p) && k in p.handlers
    ensures InOrder(p.(handlers := p.handlers - {k}))
  {
  }

  lemma AnswerInOrder(p: PageState, k: nat, a: Body)
    requires InOrder(p) && k in p.handlers && p.pc == Some(k) && a.session == p.handlers[k].session
    ensures InOrder(p.(handlers := p.handlers - {k}, sent := p.sent + [a]))
  {
  }

  lemma AdvanceInOrder(p: PageState, k: nat, sdp: string, viewer: nat)
    requires InOrder(p) && k in p.handlers
    ensures InOrder(OnAdvance(p, k, sdp, viewer))
  {
    var n := OnAdvance(p, k, sdp, viewer);
    if k in n.handlers {
      StageInOrder(p, n, k);
    } else if |n.sent| > |p.sent| {
      AnswerInOrder(p, k, n.sent[|n.sent| - 1]);
    } else {
      EndInOrder(p, k);
    }
  }

  // ------------------------------------------------------- what is answered

  // The page after the first `n` events.
  function After(saved: Option<string>, events: seq<PageEvent>, n: nat): PageState
    requires n <= |events|
  {
    if n == 0 then Opened(saved) else PageNext(After(saved, events, n - 1), events[n - 1])
  }

  // Event `j` is the offer of this session and key, and at that moment nothing
  // was saved that differs from the key.
  ghost predicate AcceptedAt(saved: Option<string>, events: seq<PageEvent>, j: nat, session: nat, run: nat, key: string)
    requires j < |events|
  {
    && IsOffer(events[j]) && events[j].frame.body.session == session && events[j].frame.body.run == run
    && events[j].fingerprint == Some(key)
    && Accepts(After(saved, events, j), Some(key), events[j].readable)
  }

  // Every handler run goes back to an offer that was accepted.
  lemma {:induction false} HandlersWereAccepted(saved: Option<string>, events: seq<PageEvent>, n: nat, k: nat)
    returns (j: nat)
    requires n <= |events| && k in After(saved, events, n).handlers
    ensures
      var h := After(saved, events, n).handlers[k];
      j < n && AcceptedAt(saved, events, j, h.session, h.run, h.hostFingerprint)
  {
    var p := After(saved, events, n - 1);
    if k in p.handlers && SameOffer(p.handlers[k], After(saved, events, n).handlers[k]) {
      j := HandlersWereAccepted(saved, events, n - 1, k);
    } else {
      NewHandlerIsForTheOffer(p, events[n - 1], k);
      j := n - 1;
    }
  }

  lemma NewHandlerIsForTheOffer(p: PageState, e: PageEvent, k: nat)
    requires k in PageNext(p, e).handlers
    requires k in p.handlers ==> !SameOffer(p.handlers[k], PageNext(p, e).handlers[k])
    ensures
      var h := PageNext(p, e).handlers[k];
      && IsOffer(e) && e.frame.body.session == h.session && e.frame.body.run == h.run
      && e.fingerprint == Some(h.hostFingerprint) && Accepts(p, e.fingerprint, e.readable)
  {
  }

  // Over every run of the page, however its handlers interleave and whatever
  // happens to the storage: each answer is to an offer whose key was the saved
  // one when the offer came, or came when nothing could be read.
  lemma {:induction false} AnswersWereAccepted(saved: Option<string>, events: seq<PageEvent>, n: nat, i: nat)
    returns (j: nat, key: string)
    requires n <= |events| && i < |After(saved, events, n).sent|
    ensures
      var a := After(saved, events, n).sent[i];
      a.AnswerBody? && j < n && AcceptedAt(saved, events, j, a.session, a.run, key)
  {
    var p, e := After(saved, events, n - 1), events[n - 1];
    if i < |p.sent| {
      j, key := AnswersWereAccepted(saved, events, n - 1, i);
    } else {
      j := HandlersWereAccepted(saved, events, n - 1, e.peer);
      key := p.handlers[e.peer].hostFingerprint;
    }
  }

  // ------------------------------------------------------- host key pinning

  // A host key is saved.
  predicate HasKey(p: PageState) { p.saved.Some? && p.saved.value != "" }

  // A handler run that may still answer is for the host whose key is saved.
  ghost predicate Pinned(p: PageState) {
    HasKey(p) && p.pc.Some? && p.pc.value in p.handlers ==> p.handlers[p.pc.value].hostFingerprint == p.saved.value
  }

  // The four ways around a saved key: the button, another tab, a storage that
  // cannot be read but written to, and one that cannot be read when an offer
  // from another host comes.
  predicate GetsAround(p: PageState, e: PageEvent) {
    match e
    case Forget(writable) => p.forgetShown && writable
    case Stored(value) => value != p.saved
    case Connected(k, readable, writable) =>
      !readable && writable && p.pc == Some(k) && k in p.fingerprints && Some(p.fingerprints[k]) != p.saved
    case OnFrame(f, fingerprint, readable) =>
      !readable && p.ready && IsOffer(e) && fingerprint.Some? && fingerprint != p.saved
    case _ => false
  }

  // A handler run that goes on, or ends, leaves the saved key and its host's
  // claim alone, and answers nobody else.
  lemma AdvanceStaysPinned(p: PageState, k: nat, sdp: string, viewer: nat)
    requires Pinned(p) && HasKey(p) && k in p.handlers
    ensures var n := OnAdvance(p, k, sdp, viewer); n.saved == p.saved && Pinned(n)
    ensures |OnAdvance(p, k, sdp, viewer).sent| > |p.sent| ==> p.handlers[k].hostFingerprint == p.saved.value
  {
  }

  lemma OfferPinnedExactlyWhen(p: PageState, session: nat, run: nat, fingerprint: Option<string>, readable: bool)
    requires InOrder(p) && HasKey(p)
    ensures
      var n := OnOffer(p, session, run, fingerprint, readable);
      && n.saved == p.saved && n.sent == p.sent
      && (Pinned(n) <==> readable || fingerprint.None? || fingerprint == p.saved)
  {
  }

  // A saved key survives an event, with only its host able to get an answer,
  // exactly when the event is none of these.
  lemma PinningHoldsExactlyWhen(p: PageState, e: PageEvent)
    requires InOrder(p) && Pinned(p) && HasKey(p)
    ensures PageNext(p, e).saved == p.saved && Pinned(PageNext(p, e)) <==> !GetsAround(p, e)
    ensures |PageNext(p, e).sent| > |p.sent| ==>
      e.Advance? && e.peer in p.handlers && p.handlers[e.peer].hostFingerprint == p.saved.value
  {
    match e
    case OnFrame(RelayedFrame(OfferBody(session, sdp, run)), fingerprint, readable) =>
      OfferPinnedExactlyWhen(p, session, run, fingerprint, readable);
    case Advance(k, sdp, viewer) => if k in p.handlers { AdvanceStaysPinned(p, k, sdp, viewer); }
    case _ =>
  }

  function PageRun(p: PageState, events: seq<PageEvent>): PageState
    decreases |events|
  {
    if events == [] then p else PageRun(PageNext(p, events[0]), events[1..])
  }

  // Every offer is newer than anything handled before it.
  ghost predicate OffersAscend(p: PageState, events: seq<PageEvent>)
    decreases |events|
  {
    events != [] ==>
      && (IsOffer(events[0]) ==> Below(p, events[0].frame.body.session))
      && OffersAscend(PageNext(p, events[0]), events[1..])
  }

  // At no point of the run is there a way around the saved key.
  ghost predicate NoWayAround(p: PageState, events: seq<PageEvent>)
    decreases |events|
  {
    events != [] ==> !GetsAround(p, events[0]) && NoWayAround(PageNext(p, events[0]), events[1..])
  }

  // For each answer of a run, the key of the offer it answers.
  function AnsweredKeys(p: PageState, events: seq<PageEvent>): seq<string>
    decreases |events|
  {
    if events == [] then []
    else
      var e, n := events[0], PageNext(p, events[0]);
      (if |n.sent| > |p.sent| && e.Advance? && e.peer in p.handlers then [p.handlers[e.peer].hostFingerprint] else [])
      + AnsweredKeys(n, events[1..])
  }

  // Over any run without those events, however the handlers interleave: a
  // saved host key stays, and only its host is answered.
  lemma {:induction false} OnlyTheSavedHostIsAnswered(p: PageState, events: seq<PageEvent>)
    requires InOrder(p) && Pinned(p) && HasKey(p) && OffersAscend(p, events) && NoWayAround(p, events)
    ensures InOrder(PageRun(p, events)) && Pinned(PageRun(p, events))
    ensures PageRun(p, events).saved == p.saved
    ensures forall k :: k in AnsweredKeys(p, events) ==> k == p.saved.value
    decreases |events|
  {
    if events == [] {
    } else {
      AnswersStayInOrder(p, events[0]);
      PinningHoldsExactlyWhen(p, events[0]);
      OnlyTheSavedHostIsAnswered(PageNext(p, events[0]), events[1..]);
    }
  }

  // With one of them it need not: a page that has one host's key refuses
  // another host, the user clicks the button, and the next offer of that other
  // host is answered.
  lemma ForgottenHostIsReplaced(key: string, other: string) returns (events: seq<PageEvent>)
    requires key != other && key != "" && other != ""
    ensures |events| == 8 && AcceptedAt(Some(key), events, 3, 2, 0, other)
    ensures !Accepts(After(Some(key), events, 1), Some(other), true)
    ensures After(Some(key), events, 8).sent == [AnswerBody(2, "answer", 0, 0)]
  {
    var refused := OnFrame(RelayedFrame(OfferBody(1, "offer", 0)), Some(other), true);
    var taken := OnFrame(RelayedFrame(OfferBody(2, "offer", 0)), Some(other), true);
    var go := Advance(0, "answer", 0);
    events := [OnFrame(ConfigFrame, None, true), refused, Forget(true), taken, go, go, go, go];
    var p := Opened(Some(key)).(ready := true);
    assert After(Some(key), events, 1) == p;
    assert After(Some(key), events, 2) == p.(forgetShown := true);
    assert After(Some(key), events, 3) == p.(forgetShown := true, saved := None);
    var h := Handler(2, 0, other, SettingRemote);
    var q := p.(forgetShown := true, saved := None, pc := Some(0), peers := 1, fingerprints := map[0 := other]);
    assert After(Some(key), events, 4) == q.(handlers := map[0 := h]);
    assert After(Some(key), events, 5) == q.(handlers := map[0 := h.(stage := CreatingAnswer)]);
    assert After(Some(key), events, 6) == q.(handlers := map[0 := h.(stage := SettingLocal)]);
    assert After(Some(key), events, 7) == q.(handlers := map[0 := h.(stage := Gathering)], forgetShown := false);
  }
}
