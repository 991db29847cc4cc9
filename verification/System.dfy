// Host, hub and viewer pages together, linked by one FIFO per direction of
// each WebSocket. Every event is one atomic step of one of them; an event that
// cannot happen leaves the system unchanged. The host may be restarted at any
// time; what its earlier runs sent may still be on its way then, and an earlier
// host that has not ended may even go on sending.
module System {
  import opened Wrappers
  import opened Devices
  import H = SessionHost
  import opened Hub
  import opened Page

  // A viewer connection: its page, the link from page to hub, and whether the
  // hub's read loop for it is still running.
  datatype Viewer = Viewer(page: PageState, up: seq<Body>, reading: bool)

  // Where the one offer of a session, or the answer made from it, is now.
  datatype Place =
    | Unsent | AtHub | AtPage(viewer: nat) | InHandler(viewer: nat, peer: nat)
    | Answered(viewer: nat) | AtHost | Gone

  // The current host run. All but its number is history that no step reads:
  // the viewer in the slot at each viewer-joined, where each session's offer
  // is, the newest one relayed, and which viewers offers were relayed to.
  datatype Run = Run(number: nat, holders: seq<nat>, place: map<nat, Place>, relayed: nat, reached: map<nat, nat>)

  // `out` in the hub holds the links from the hub. `late` is what earlier hosts
  // sent and the hub has not read yet.
  datatype Sys = Sys(
    hub: HubState,
    host: H.Host,
    run: Run,
    registered: bool,
    hostOut: seq<Body>,
    late: seq<Body>,
    viewers: seq<Viewer>)

  datatype SysEvent =
    | HostConnects
    | HostLeaves
    | HostReads(fingerprint: Option<string>, saved: bool, now: nat)
    | HostSteps(event: H.Event, sdp: string)
    | HostRestarts(paired: seq<PairedDevice>)
    | OldHostSends(run: nat, session: nat, sdp: string)
    | OldHostLeaves(run: nat)
    | ViewerConnects(savedKey: Option<string>)
    | ViewerLeaves(viewer: nat)
    | HubReadsHost
    | HubReadsLate(index: nat)
    | HubReadsViewer(viewer: nat)
    | PageReads(viewer: nat, fingerprint: Option<string>, readable: bool)
    | PageResumes(viewer: nat, peer: nat, sdp: string)
    | PageThrows(viewer: nat, peer: nat)
    | PageLocal(viewer: nat, change: PageEvent)

  function HostConn(run: nat): Conn { Conn(HostRole, run) }

  function ViewerConn(v: nat): Conn { Conn(ViewerRole, v) }

  function NewRun(number: nat): Run { Run(number, [], map[], 0, map[]) }

  function Start(paired: seq<PairedDevice>): Sys { Sys(NOBODY, H.Fresh(paired), NewRun(0), false, [], [], []) }

  function PlaceOf(place: map<nat, Place>, n: nat): Place { if n in place then place[n] else Unsent }

  // The offer or answer of session `n` of host run `run` has moved on.
  function Moved(r: Run, run: nat, n: nat, to: Place): (m: Run)
    ensures m.number == r.number && m.holders == r.holders && m.relayed == r.relayed && m.reached == r.reached
    ensures forall k ::
      PlaceOf(m.place, k) == if k == n && run == r.number then to else PlaceOf(r.place, k)
  {
    if run == r.number then r.(place := r.place[n := to]) else r
  }

  function Popped(h: HubState, c: Conn): (r: HubState)
    requires Stream(h, c) != []
    ensures r.host == h.host && r.viewer == h.viewer && r.broken == h.broken
    ensures forall d :: Stream(r, d) == if d == c then Stream(h, d)[1..] else Stream(h, d)
  {
    h.(out := h.out[c := h.out[c][1..]])
  }

  // The connection of the current host run is in its slot, so the hub's read
  // loop for it is running.
  predicate HostReading(s: Sys) { s.hub.host == Some(HostConn(s.run.number)) }

  function WithHolder(s: Sys): Sys {
    if HostReading(s) && s.hub.viewer.Some? then
      s.(run := s.run.(holders := s.run.holders + [s.hub.viewer.value.number]))
    else s
  }

  function AsMessage(f: Frame, fingerprint: Option<string>): H.Message {
    match f
    case ConfigFrame => H.Config
    case JoinedFrame => H.ViewerJoined
    case RelayedFrame(OfferBody(_, _, _)) => H.Offer
    case RelayedFrame(AnswerBody(session, sdp, _, _)) => H.Answer(session, sdp, fingerprint)
  }

  // What is on the link from the hub to the host.
  function ToHost(s: Sys): seq<Frame> { Stream(s.hub, HostConn(s.run.number)) }

  // The host takes the next frame off its link and is in state `h` after it.
  function HostTook(s: Sys, h: H.Host): Sys
    requires ToHost(s) != []
  {
    var f := ToHost(s)[0];
    s.(hub := Popped(s.hub, HostConn(s.run.number)),
       host := h,
       run := if f.RelayedFrame? && f.body.AnswerBody? then Moved(s.run, f.body.run, f.body.session, Gone) else s.run)
  }

  function OnHostReads(s: Sys, fingerprint: Option<string>, saved: bool, now: nat): Sys
    requires ToHost(s) != []
  {
    HostTook(s, H.Next(s.host, H.Receive(AsMessage(ToHost(s)[0], fingerprint), saved, now)))
  }

  // A successful start of session puts its offer on the link to the hub.
  function WithOffer(s: Sys, sdp: string): Sys {
    s.(hostOut := s.hostOut + [OfferBody(s.host.session, sdp, s.run.number)],
       run := Moved(s.run, s.run.number, s.host.session, AtHub))
  }

  function OnHostSteps(s: Sys, e: H.Event, sdp: string): Sys
    requires !e.Receive?
  {
    var offered := if s.host.doing.Starting? && e.Resume? && e.ok then WithOffer(s, sdp) else s;
    offered.(host := H.Next(s.host, e))
  }

  // What the current run's offer `b` becomes when the hub relays it.
  function RelayedOffer(r: Run, b: Body, viewer: Option<Conn>): Run {
    var to := if viewer.Some? then AtPage(viewer.value.number) else Gone;
    Moved(r, r.number, b.session, to).(
      relayed := b.session,
      reached := if viewer.Some? then r.reached[b.session := viewer.value.number] else r.reached)
  }

  function OnHubReadsHost(s: Sys): Sys
    requires s.hostOut != []
  {
    var b := s.hostOut[0];
    s.(hub := Relayed(s.hub, HostRole, b), hostOut := s.hostOut[1..], run := RelayedOffer(s.run, b, s.hub.viewer))
  }

  function OnHubReadsLate(s: Sys, i: nat): Sys
    requires i < |s.late|
  {
    s.(hub := Relayed(s.hub, HostRole, s.late[i]), late := s.late[..i] + s.late[i + 1..])
  }

  function OnHubReadsViewer(s: Sys, v: nat): Sys
    requires v < |s.viewers| && s.viewers[v].up != []
  {
    var b := s.viewers[v].up[0];
    s.(hub := Relayed(s.hub, ViewerRole, b),
       viewers := s.viewers[v := s.viewers[v].(up := s.viewers[v].up[1..])],
       run := Moved(s.run, b.run, b.session, if s.hub.host.Some? then AtHost else Gone))
  }

  function WithPage(s: Sys, v: nat, p: PageState): Sys
    requires v < |s.viewers|
  {
    s.(viewers := s.viewers[v := s.viewers[v].(page := p)])
  }

  function OnPageReads(s: Sys, v: nat, fingerprint: Option<string>, readable: bool): Sys
    requires v < |s.viewers| && Stream(s.hub, ViewerConn(v)) != []
  {
    var f := Stream(s.hub, ViewerConn(v))[0];
    var p := s.viewers[v].page;
    var n := PageNext(p, OnFrame(f, fingerprint, readable));
    WithPage(s, v, n).(
      hub := Popped(s.hub, ViewerConn(v)),
      run := if !f.RelayedFrame? then s.run
             else Moved(s.run, f.body.run, f.body.session, if n.peers > p.peers then InHandler(v, p.peers) else Gone))
  }

  function OnPageResumes(s: Sys, v: nat, k: nat, sdp: string): Sys
    requires v < |s.viewers|
  {
    var w := s.viewers[v];
    if k !in w.page.handlers then s
    else
      var h, n := w.page.handlers[k], PageNext(w.page, Advance(k, sdp, v));
      if |n.sent| > |w.page.sent| then
        s.(viewers := s.viewers[v := w.(page := n, up := w.up + [n.sent[|n.sent| - 1]])],
           run := Moved(s.run, h.run, h.session, Answered(v)))
      else
        WithPage(s, v, n).(run := if k in n.handlers then s.run else Moved(s.run, h.run, h.session, Gone))
  }

  function OnPageThrows(s: Sys, v: nat, k: nat): Sys
    requires v < |s.viewers|
  {
    var p := s.viewers[v].page;
    if k !in p.handlers then s
    else WithPage(s, v, PageNext(p, Throw(k))).(run := Moved(s.run, p.handlers[k].run, p.handlers[k].session, Gone))
  }

  function SysNext(s: Sys, e: SysEvent): Sys {
    match e
    case HostConnects =>
      if s.registered then s
      else WithHolder(s.(hub := Registered(s.hub, HostConn(s.run.number)), registered := true))
    case HostLeaves => if HostReading(s) then s.(hub := Unregistered(s.hub, HostConn(s.run.number))) else s
    case HostReads(fingerprint, saved, now) =>
      if ToHost(s) != [] && (s.host.doing.Idle? || s.host.doing.AwaitingConfig?)
      then OnHostReads(s, fingerprint, saved, now) else s
    case HostSteps(event, sdp) => if event.Receive? then s else OnHostSteps(s, event, sdp)
    case HostRestarts(paired) =>
      s.(host := H.Fresh(paired), run := NewRun(s.run.number + 1), registered := false,
         hostOut := [], late := s.late + s.hostOut)
    case OldHostSends(run, session, sdp) =>
      if run < s.run.number then s.(late := s.late + [OfferBody(session, sdp, run)]) else s
    case OldHostLeaves(run) => if run < s.run.number then s.(hub := Unregistered(s.hub, HostConn(run))) else s
    case ViewerConnects(savedKey) =>
      WithHolder(s.(hub := Registered(s.hub, ViewerConn(|s.viewers|)),
                    viewers := s.viewers + [Viewer(Opened(savedKey), [], true)]))
    case ViewerLeaves(v) =>
      if v < |s.viewers| && s.viewers[v].reading then
        s.(hub := Unregistered(s.hub, ViewerConn(v)), viewers := s.viewers[v := s.viewers[v].(reading := false)])
      else s
    case HubReadsHost => if HostReading(s) && s.hostOut != [] then OnHubReadsHost(s) else s
    case HubReadsLate(i) => if i < |s.late| then OnHubReadsLate(s, i) else s
    case HubReadsViewer(v) =>
      if v < |s.viewers| && s.viewers[v].reading && s.viewers[v].up != [] then OnHubReadsViewer(s, v) else s
    case PageReads(v, fingerprint, readable) =>
      if v < |s.viewers| && Stream(s.hub, ViewerConn(v)) != [] then OnPageReads(s, v, fingerprint, readable) else s
    case PageResumes(v, k, sdp) => if v < |s.viewers| then OnPageResumes(s, v, k, sdp) else s
    case PageThrows(v, k) => if v < |s.viewers| then OnPageThrows(s, v, k) else s
    case PageLocal(v, e) =>
      if v < |s.viewers| && IsLocal(e) then WithPage(s, v, PageNext(s.viewers[v].page, e)) else s
  }

  function SysRun(s: Sys, events: seq<SysEvent>): Sys
    decreases |events|
  {
    if events == [] then s else SysRun(SysNext(s, events[0]), events[1..])
  }
}
