// What every step of the system keeps, whatever host runs came before: where
// each offer and answer of the current host run is, and that in front of every
// outdated answer there is a newer viewer-joined.
module SystemInv {
  import opened Wrappers
  import opened Devices
  import H = SessionHost
  import opened Hub
  import opened Page
  import opened System

  predicate IsOffer(f: Frame) { f.RelayedFrame? && f.body.OfferBody? }

  predicate IsAnswer(f: Frame) { f.RelayedFrame? && f.body.AnswerBody? }

  predicate Current(f: Frame, r: Run) { f.RelayedFrame? && f.body.run == r.number }

  // Viewer `v` held the slot when session `n` was announced, or the host has
  // since been told of a newer viewer.
  predicate Holds(holders: seq<nat>, v: nat, n: nat) {
    1 <= n <= |holders| && (holders[n - 1] == v || n < |holders|)
  }

  // Session `n` of the current run has been relayed to viewer `v`, and is now
  // at `place`.
  predicate HeldBy(r: Run, v: nat, n: nat, place: Place) {
    n <= r.relayed && PlaceOf(r.place, n) == place && Holds(r.holders, v, n)
  }

  // One viewer connection. Its offers, suspended handlers and answers are each
  // the only copy of their session.
  ghost predicate DownOk(v: nat, down: seq<Frame>, r: Run) {
    && (forall i :: 0 <= i < |down| ==> down[i] == ConfigFrame || (IsOffer(down[i]) && down[i].body.run <= r.number))
    && (forall i :: 0 <= i < |down| && Current(down[i], r) ==> HeldBy(r, v, down[i].body.session, AtPage(v)))
    && (forall i, j :: 0 <= i < j < |down| && Current(down[i], r) && Current(down[j], r) ==>
          down[i].body.session != down[j].body.session)
  }

  ghost predicate HandlersOk(v: nat, handlers: map<nat, Handler>, r: Run) {
    forall k :: k in handlers ==>
      && handlers[k].run <= r.number
      && (handlers[k].run == r.number ==> HeldBy(r, v, handlers[k].session, InHandler(v, k)))
  }

  ghost predicate UpOk(v: nat, up: seq<Body>, r: Run) {
    && (forall i :: 0 <= i < |up| ==> up[i].AnswerBody? && up[i].run <= r.number && up[i].viewer == v)
    && (forall i :: 0 <= i < |up| && up[i].run == r.number ==> HeldBy(r, v, up[i].session, Answered(v)))
    && (forall i, j :: 0 <= i < j < |up| && up[i].run == r.number && up[j].run == r.number ==>
          up[i].session != up[j].session)
  }

  ghost predicate ViewerOk(v: nat, w: Viewer, down: seq<Frame>, r: Run) {
    DownOk(v, down, r) && HandlersOk(v, w.page.handlers, r) && UpOk(v, w.up, r)
  }

  // The link from host to hub: offers in order, none relayed yet.
  ghost predicate OutOk(out: seq<Body>, session: nat, r: Run) {
    && (forall i :: 0 <= i < |out| ==>
          && out[i].OfferBody? && out[i].run == r.number && r.relayed < out[i].session <= session
          && PlaceOf(r.place, out[i].session) == AtHub)
    && (forall i, j :: 0 <= i < j < |out| ==> out[i].session < out[j].session)
  }

  // An answer of the current run on the link from hub to host.
  ghost predicate AnswerOk(b: Body, viewers: nat, r: Run) {
    && b.AnswerBody? && b.viewer < viewers && 1 <= b.session <= |r.holders| && b.session <= r.relayed
    && PlaceOf(r.place, b.session) == AtHost
  }

  // The i-th frame is an answer from the viewer its session was announced for,
  // or there is a newer viewer-joined in front of it.
  ghost predicate Outdated(link: seq<Frame>, i: nat, r: Run, session: nat)
    requires i < |link| && link[i].RelayedFrame? && link[i].body.AnswerBody? && 1 <= link[i].body.session <= |r.holders|
  {
    var b := link[i].body;
    r.holders[b.session - 1] == b.viewer || b.session < session + Joins(link[..i])
  }

  // The link from hub to host. In front of every answer that is not from the
  // viewer its session was announced for there is a newer viewer-joined;
  // `session` is the loop's session once it is done with the last one it read.
  ghost predicate InOk(link: seq<Frame>, viewers: nat, r: Run, session: nat) {
    && (forall i :: 0 <= i < |link| && link[i].RelayedFrame? ==> IsAnswer(link[i]) && link[i].body.run <= r.number)
    && (forall i :: 0 <= i < |link| && Current(link[i], r) ==>
          && AnswerOk(link[i].body, viewers, r)
          && Outdated(link, i, r, session))
    && (forall i, j :: 0 <= i < j < |link| && Current(link[i], r) && Current(link[j], r) ==>
          link[i].body.session != link[j].body.session)
  }

  ghost predicate HostOk(h: H.Host, r: Run) {
    && H.Consistent(h) && r.relayed <= h.session
    && (forall n :: n > h.session ==> PlaceOf(r.place, n) == Unsent)
    && (h.doing.Starting? ==> 1 <= h.session && r.relayed < h.session && PlaceOf(r.place, h.session) == Unsent)
  }

  function Base(h: H.Host): nat { h.session + if h.doing.ClosingOld? then 1 else 0 }

  // Connections that have not been made yet.
  predicate Future(s: Sys, c: Conn) {
    match c.role
    case HostRole => c.number > s.run.number || (c.number == s.run.number && !s.registered)
    case ViewerRole => c.number >= |s.viewers|
  }

  ghost predicate ConnsOk(s: Sys) {
    && s.hub.broken == {}
    && (s.hub.host.Some? ==>
          s.hub.host.value.role == HostRole && !Future(s, s.hub.host.value) && (s.registered ==> HostReading(s)))
    && (s.hub.viewer.Some? ==> s.hub.viewer.value.role == ViewerRole && !Future(s, s.hub.viewer.value))
    && (forall c :: Future(s, c) ==> Stream(s.hub, c) == [])
  }

  // Every viewer-joined is accounted for.
  ghost predicate HoldersOk(s: Sys) {
    && (!s.registered ==> s.host.session == 0 && (s.host.doing.AwaitingConfig? || s.host.doing.Stopped?))
    && (s.host.doing.AwaitingConfig? && s.registered ==> ToHost(s) != [] && ToHost(s)[0] == ConfigFrame)
    && |s.run.holders| == Base(s.host) + Joins(ToHost(s))
    && (forall i :: 0 <= i < |s.run.holders| ==> s.run.holders[i] < |s.viewers|)
    // The viewer in the slot is the one the host was last told about.
    && (HostReading(s) && s.hub.viewer.Some? ==>
          s.run.holders != [] && s.run.holders[|s.run.holders| - 1] == s.hub.viewer.value.number)
  }

  ghost predicate SlotsOk(s: Sys) { ConnsOk(s) && HoldersOk(s) }

  ghost predicate ViewersOk(s: Sys) {
    forall v :: 0 <= v < |s.viewers| ==> ViewerOk(v, s.viewers[v], Stream(s.hub, ViewerConn(v)), s.run)
  }

  ghost predicate LateOk(late: seq<Body>, number: nat) {
    forall i :: 0 <= i < |late| ==> late[i].OfferBody? && late[i].run < number
  }

  ghost predicate Inv(s: Sys) {
    && SlotsOk(s)
    && OutOk(s.hostOut, s.host.session, s.run) && LateOk(s.late, s.run.number)
    && InOk(ToHost(s), |s.viewers|, s.run, Base(s.host))
    && HostOk(s.host, s.run)
    && ViewersOk(s)
  }

  // Session numbers have not run out.
  predicate InRange(s: Sys) { |s.run.holders| < H.SESSIONS }

  lemma InvStart(paired: seq<PairedDevice>)
    ensures Inv(Start(paired))
  {
  }

  // -------------------------------------------- what moving one token leaves alone

  predicate OfViewer(p: Place, v: nat) {
    p == AtPage(v) || p == Answered(v) || (p.InHandler? && p.viewer == v)
  }

  // Between two records of the run, only session `n` has moved; more viewers
  // may have been announced and more offers relayed.
  ghost predicate OnlyMoves(r: Run, m: Run, n: nat) {
    && m.number == r.number && r.holders <= m.holders && r.relayed <= m.relayed
    && forall k :: k != n ==> PlaceOf(m.place, k) == PlaceOf(r.place, k)
  }

  lemma ViewerUntouched(v: nat, w: Viewer, down: seq<Frame>, r: Run, m: Run, n: nat)
    requires ViewerOk(v, w, down, r) && OnlyMoves(r, m, n) && !OfViewer(PlaceOf(r.place, n), v)
    ensures ViewerOk(v, w, down, m)
  {
    DownUntouched(v, down, r, m, n);
    HandlersUntouched(v, w.page.handlers, r, m, n);
    UpUntouched(v, w.up, r, m, n);
  }

  lemma StillHeld(r: Run, m: Run, n: nat, v: nat, k: nat, place: Place)
    requires OnlyMoves(r, m, n) && HeldBy(r, v, k, place) && k != n
    ensures HeldBy(m, v, k, place)
  {
  }

  lemma DownUntouched(v: nat, down: seq<Frame>, r: Run, m: Run, n: nat)
    requires DownOk(v, down, r) && OnlyMoves(r, m, n) && PlaceOf(r.place, n) != AtPage(v)
    ensures DownOk(v, down, m)
  {
    forall i | 0 <= i < |down| && Current(down[i], m)
      ensures HeldBy(m, v, down[i].body.session, AtPage(v))
    {
      StillHeld(r, m, n, v, down[i].body.session, AtPage(v));
    }
  }

  lemma HandlersUntouched(v: nat, handlers: map<nat, Handler>, r: Run, m: Run, n: nat)
    requires HandlersOk(v, handlers, r) && OnlyMoves(r, m, n)
    requires PlaceOf(r.place, n).InHandler? ==> PlaceOf(r.place, n).viewer != v
    ensures HandlersOk(v, handlers, m)
  {
    forall k | k in handlers && handlers[k].run == m.number
      ensures HeldBy(m, v, handlers[k].session, InHandler(v, k))
    {
      StillHeld(r, m, n, v, handlers[k].session, InHandler(v, k));
    }
  }

  lemma UpUntouched(v: nat, up: seq<Body>, r: Run, m: Run, n: nat)
    requires UpOk(v, up, r) && OnlyMoves(r, m, n) && PlaceOf(r.place, n) != Answered(v)
    ensures UpOk(v, up, m)
  {
    forall i | 0 <= i < |up| && up[i].run == m.number
      ensures HeldBy(m, v, up[i].session, Answered(v))
    {
      StillHeld(r, m, n, v, up[i].session, Answered(v));
    }
  }

  lemma InUntouched(link: seq<Frame>, viewers: nat, r: Run, session: nat, m: Run, n: nat)
    requires InOk(link, viewers, r, session) && OnlyMoves(r, m, n) && PlaceOf(r.place, n) != AtHost
    ensures InOk(link, viewers, m, session)
  {
  }

  lemma OutUntouched(out: seq<Body>, session: nat, r: Run, m: Run, n: nat)
    requires OutOk(out, session, r) && OnlyMoves(r, m, n) && m.relayed == r.relayed && PlaceOf(r.place, n) != AtHub
    ensures OutOk(out, session, m)
  {
  }

  // A token that is with no viewer moves.
  lemma AllUntouched(s: Sys, m: Run, n: nat)
    requires ViewersOk(s) && OnlyMoves(s.run, m, n)
    requires forall v :: 0 <= v < |s.viewers| ==> !OfViewer(PlaceOf(s.run.place, n), v)
    ensures ViewersOk(s.(run := m))
  {
    forall v | 0 <= v < |s.viewers|
      ensures ViewerOk(v, s.viewers[v], Stream(s.hub, ViewerConn(v)), m)
    {
      ViewerUntouched(v, s.viewers[v], Stream(s.hub, ViewerConn(v)), s.run, m, n);
    }
  }

  lemma JoinsTail(stream: seq<Frame>)
    requires stream != []
    ensures Joins(stream) == Joins(stream[1..]) + if stream[0] == JoinedFrame then 1 else 0
  {
    var last := |stream| - 1;
    if last > 0 {
      JoinsTail(stream[..last]);
      assert stream[..last][1..] == stream[1..][..last - 1];
    }
  }

  lemma JoinsPrefixTail(stream: seq<Frame>, i: nat)
    requires 0 < i <= |stream|
    ensures Joins(stream[..i]) == Joins(stream[1..][..i - 1]) + if stream[0] == JoinedFrame then 1 else 0
  {
    JoinsTail(stream[..i]);
    assert stream[..i][1..] == stream[1..][..i - 1];
  }

  // ------------------------------------------------------------ the host reads

  // What reading frame `f` does to the parts of the host the links depend on.
  predicate ReadEffect(h: H.Host, f: Frame, n: H.Host) {
    || (f == JoinedFrame && n.session == h.session && n.doing.ClosingOld? && n.answers == h.answers)
    || (f == JoinedFrame && n.session == (h.session + 1) % H.SESSIONS && n.doing.Starting? && n.answers == 0)
    || (f != JoinedFrame && n.session == h.session
        && !n.doing.ClosingOld? && !n.doing.Starting? && !n.doing.AwaitingConfig?
        && n.answers == h.answers + if IsAnswer(f) && f.body.session == h.session then 1 else 0)
  }

  lemma HostReadShape(h: H.Host, f: Frame, fp: Option<string>, saved: bool, now: nat)
    requires h.doing.Idle? || (h.doing.AwaitingConfig? && f == ConfigFrame)
    ensures ReadEffect(h, f, H.Next(h, H.Receive(AsMessage(f, fp), saved, now)))
  {
  }

  lemma HostReadEffect(h: H.Host, f: Frame, fp: Option<string>, saved: bool, now: nat) returns (n: H.Host)
    requires H.Consistent(h) && (h.doing.Idle? || (h.doing.AwaitingConfig? && f == ConfigFrame))
    ensures n == H.Next(h, H.Receive(AsMessage(f, fp), saved, now)) && ReadEffect(h, f, n) && H.Consistent(n)
  {
    var e := H.Receive(AsMessage(f, fp), saved, now);
    n := H.Next(h, e);
    HostReadShape(h, f, fp, saved, now);
    H.ConsistentStep(h, e);
  }

  ghost predicate CanRead(s: Sys, h: H.Host) {
    && Inv(s) && InRange(s) && ToHost(s) != []
    && (s.host.doing.Idle? || s.host.doing.AwaitingConfig?)
    && ReadEffect(s.host, ToHost(s)[0], h) && H.Consistent(h)
  }

  lemma HostTookBase(s: Sys, h: H.Host)
    requires CanRead(s, h)
    ensures ToHost(HostTook(s, h)) == ToHost(s)[1..]
    ensures Base(h) == Base(s.host) + if ToHost(s)[0] == JoinedFrame then 1 else 0
    ensures |s.run.holders| == Base(h) + Joins(ToHost(s)[1..])
    ensures h.session == s.host.session || (h.session == s.host.session + 1 && h.doing.Starting? && h.answers == 0)
  {
    JoinsTail(ToHost(s));
  }

  lemma HostTookKeepsSlots(s: Sys, h: H.Host)
    requires CanRead(s, h)
    ensures SlotsOk(HostTook(s, h))
  {
    HostTookBase(s, h);
  }

  // The run after the first frame of the link was read, if it was an answer.
  function Read(r: Run, f: Frame): Run {
    if IsAnswer(f) then Moved(r, f.body.run, f.body.session, Gone) else r
  }

  lemma InWithoutFirst(link: seq<Frame>, viewers: nat, r: Run, session: nat, next: nat)
    requires InOk(link, viewers, r, session) && link != []
    requires next == session + if link[0] == JoinedFrame then 1 else 0
    ensures InOk(link[1..], viewers, Read(r, link[0]), next)
  {
    var rest := link[1..];
    forall i | 0 <= i < |rest| && Current(rest[i], r)
      ensures AnswerOk(rest[i].body, viewers, Read(r, link[0])) && Outdated(rest, i, r, next)
    {
      assert rest[i] == link[i + 1];
      JoinsPrefixTail(link, i + 1);
    }
  }

  lemma HostTookKeepsViewers(s: Sys, h: H.Host)
    requires CanRead(s, h)
    ensures ViewersOk(HostTook(s, h))
  {
    var f := ToHost(s)[0];
    if Current(f, s.run) {
      AllUntouched(s, Read(s.run, f), f.body.session);
    }
  }

  lemma HostTookKeepsHost(s: Sys, h: H.Host)
    requires CanRead(s, h)
    ensures var n := HostTook(s, h); HostOk(n.host, n.run) && OutOk(n.hostOut, n.host.session, n.run)
  {
    HostTookBase(s, h);
    var f := ToHost(s)[0];
    if Current(f, s.run) {
      OutUntouched(s.hostOut, s.host.session, s.run, Read(s.run, f), f.body.session);
    }
  }

  lemma HostReadsKeepsInv(s: Sys, fp: Option<string>, saved: bool, now: nat)
    requires Inv(s) && InRange(s) && ToHost(s) != [] && (s.host.doing.Idle? || s.host.doing.AwaitingConfig?)
    ensures Inv(OnHostReads(s, fp, saved, now))
  {
    var h := HostReadEffect(s.host, ToHost(s)[0], fp, saved, now);
    HostTookBase(s, h);
    HostTookKeepsSlots(s, h);
    InWithoutFirst(ToHost(s), |s.viewers|, s.run, Base(s.host), Base(h));
    HostTookKeepsViewers(s, h);
    HostTookKeepsHost(s, h);
  }

  // ------------------------------------------------------------ the host steps

  predicate StepEffect(h: H.Host, n: H.Host) {
    || (n.session == h.session && n.answers == h.answers
        && (n.doing.ClosingOld? <==> h.doing.ClosingOld?)
        && (n.doing.Starting? ==> h.doing.Starting?)
        && (n.doing.AwaitingConfig? ==> h.doing.AwaitingConfig?)
        && (h.doing.AwaitingConfig? ==> n.doing.AwaitingConfig? || n.doing.Stopped?)
        && (h.doing.Stopped? ==> n.doing.Stopped?))
    || (h.doing.ClosingOld? && n.session == (h.session + 1) % H.SESSIONS && n.doing.Starting? && n.answers == 0)
  }

  lemma HostStepShape(h: H.Host, e: H.Event)
    requires !e.Receive?
    ensures StepEffect(h, H.Next(h, e))
    ensures h.doing.Starting? && e.Resume? ==> H.Next(h, e).doing.Idle?
  {
  }

  lemma HostStepEffect(h: H.Host, e: H.Event) returns (n: H.Host)
    requires !e.Receive? && H.Consistent(h)
    ensures n == H.Next(h, e) && StepEffect(h, n) && H.Consistent(n)
    ensures h.doing.Starting? && e.Resume? ==> n.doing.Idle?
  {
    n := H.Next(h, e);
    HostStepShape(h, e);
    H.ConsistentStep(h, e);
  }

  lemma HostSteppedKeepsInv(s: Sys, h: H.Host)
    requires Inv(s) && InRange(s) && StepEffect(s.host, h) && H.Consistent(h)
    ensures Inv(s.(host := h))
  {
    assert Base(h) == Base(s.host);
  }

  lemma OfferKeepsOut(out: seq<Body>, r: Run, session: nat, sdp: string)
    requires OutOk(out, session, r) && PlaceOf(r.place, session) == Unsent && r.relayed < session
    ensures OutOk(out + [OfferBody(session, sdp, r.number)], session, Moved(r, r.number, session, AtHub))
  {
  }

  lemma OfferKeepsInv(s: Sys, sdp: string, h: H.Host)
    requires Inv(s) && InRange(s) && s.host.doing.Starting?
    requires StepEffect(s.host, h) && h.doing.Idle? && H.Consistent(h)
    ensures Inv(WithOffer(s, sdp).(host := h))
  {
    var m := Moved(s.run, s.run.number, s.host.session, AtHub);
    assert Base(h) == Base(s.host);
    OfferKeepsOut(s.hostOut, s.run, s.host.session, sdp);
    InUntouched(ToHost(s), |s.viewers|, s.run, Base(h), m, s.host.session);
    AllUntouched(s, m, s.host.session);
  }

  lemma HostStepsKeepsInv(s: Sys, e: H.Event, sdp: string)
    requires Inv(s) && InRange(s) && !e.Receive?
    ensures Inv(OnHostSteps(s, e, sdp))
  {
    var h := HostStepEffect(s.host, e);
    if s.host.doing.Starting? && e.Resume? && e.ok {
      OfferKeepsInv(s, sdp, h);
    } else {
      HostSteppedKeepsInv(s, h);
    }
  }

  // ------------------------------------------------------- another host run

  lemma OldViewer(v: nat, w: Viewer, down: seq<Frame>, r: Run)
    requires ViewerOk(v, w, down, r)
    ensures ViewerOk(v, w, down, NewRun(r.number + 1))
  {
  }

  // A new run starts from nothing: all that is on its way is from earlier ones.
  lemma HostRestartsKeepsInv(s: Sys, paired: seq<PairedDevice>)
    requires Inv(s)
    ensures Inv(SysNext(s, HostRestarts(paired)))
  {
    var n := SysNext(s, HostRestarts(paired));
    H.FreshIsConsistent(paired);
    assert Future(s, HostConn(n.run.number));
    forall v | 0 <= v < |n.viewers|
      ensures ViewerOk(v, n.viewers[v], Stream(n.hub, ViewerConn(v)), n.run)
    {
      OldViewer(v, s.viewers[v], Stream(s.hub, ViewerConn(v)), s.run);
    }
  }

  // What earlier hosts still have on the way concerns nothing else.
  lemma LateKeepsInv(s: Sys, late: seq<Body>)
    requires Inv(s) && LateOk(late, s.run.number)
    ensures Inv(s.(late := late))
  {
    assert ToHost(s.(late := late)) == ToHost(s);
  }

  lemma LateOfferArrives(v: nat, w: Viewer, down: seq<Frame>, r: Run, b: Body)
    requires ViewerOk(v, w, down, r) && b.OfferBody? && b.run < r.number
    ensures ViewerOk(v, w, down + [RelayedFrame(b)], r)
  {
  }

  lemma LateRelayKeepsViewers(s: Sys, b: Body)
    requires Inv(s) && b.OfferBody? && b.run < s.run.number
    ensures ViewersOk(s.(hub := Relayed(s.hub, HostRole, b)))
  {
    var n := s.(hub := Relayed(s.hub, HostRole, b));
    forall v | 0 <= v < |s.viewers|
      ensures ViewerOk(v, s.viewers[v], Stream(n.hub, ViewerConn(v)), s.run)
    {
      LateOfferArrives(v, s.viewers[v], Stream(s.hub, ViewerConn(v)), s.run, b);
    }
  }

  lemma LateRelayKeepsInv(s: Sys, b: Body)
    requires Inv(s) && b.OfferBody? && b.run < s.run.number
    ensures Inv(s.(hub := Relayed(s.hub, HostRole, b)))
  {
    var n := s.(hub := Relayed(s.hub, HostRole, b));
    assert ToHost(n) == ToHost(s);
    LateRelayKeepsViewers(s, b);
  }

  // ------------------------------------------------------- coming and going

  // Registering writes nothing to the viewers already there.
  lemma HolderAddedKeepsViewers(s: Sys, n: Sys)
    requires ViewersOk(s) && s.viewers <= n.viewers
    requires OnlyMoves(s.run, n.run, 0) && n.run.place == s.run.place
    requires forall v :: 0 <= v < |s.viewers| ==> Stream(n.hub, ViewerConn(v)) == Stream(s.hub, ViewerConn(v))
    ensures forall v :: 0 <= v < |s.viewers| ==> ViewerOk(v, n.viewers[v], Stream(n.hub, ViewerConn(v)), n.run)
  {
    forall v | 0 <= v < |s.viewers|
      ensures ViewerOk(v, n.viewers[v], Stream(n.hub, ViewerConn(v)), n.run)
    {
      ViewerKept(v, s.viewers[v], Stream(s.hub, ViewerConn(v)), s.run, n.run);
      assert n.viewers[v] == s.viewers[v];
    }
  }

  lemma ViewerKept(v: nat, w: Viewer, down: seq<Frame>, r: Run, m: Run)
    requires ViewerOk(v, w, down, r) && m.number == r.number && r.holders <= m.holders && r.relayed <= m.relayed
    requires m.place == r.place
    ensures ViewerOk(v, w, down, m)
  {
  }

  // A host that registers starts with an empty link.
  lemma HostConnectsLink(s: Sys) returns (link: seq<Frame>)
    requires SlotsOk(s) && !s.registered
    ensures link == ToHost(SysNext(s, HostConnects)) && link != [] && link[0] == ConfigFrame
    ensures Joins(link) == if s.hub.viewer.Some? then 1 else 0
    ensures forall i :: 0 <= i < |link| ==> !link[i].RelayedFrame?
  {
    link := [ConfigFrame] + if s.hub.viewer.Some? then [JoinedFrame] else [];
    assert Future(s, HostConn(s.run.number));
    JoinsAppend([], ConfigFrame);
    JoinsAppend([ConfigFrame], JoinedFrame);
    assert [] + [ConfigFrame] == [ConfigFrame];
  }

  lemma HostConnectsStreams(s: Sys)
    requires SlotsOk(s) && !s.registered
    ensures
      var n := SysNext(s, HostConnects);
      && (forall c :: Future(n, c) ==> Stream(n.hub, c) == [])
      && (forall v :: Stream(n.hub, ViewerConn(v)) == Stream(s.hub, ViewerConn(v)))
  {
    var n := SysNext(s, HostConnects);
    forall c | Future(n, c)
      ensures Stream(n.hub, c) == []
    {
      assert Future(s, c) && c != HostConn(s.run.number);
    }
  }

  lemma HostConnectsKeepsConns(s: Sys)
    requires SlotsOk(s) && !s.registered
    ensures ConnsOk(SysNext(s, HostConnects))
  {
    HostConnectsStreams(s);
  }

  lemma HostConnectsKeepsHolders(s: Sys, link: seq<Frame>)
    requires SlotsOk(s) && !s.registered
    requires link == ToHost(SysNext(s, HostConnects)) && link != [] && link[0] == ConfigFrame
    requires Joins(link) == if s.hub.viewer.Some? then 1 else 0
    ensures HoldersOk(SysNext(s, HostConnects))
  {
    assert Future(s, HostConn(s.run.number)) && Joins([]) == 0;
    assert s.run.holders == [];
  }

  lemma HostConnectsKeepsSlots(s: Sys, link: seq<Frame>)
    requires SlotsOk(s) && !s.registered
    requires link == ToHost(SysNext(s, HostConnects)) && link != [] && link[0] == ConfigFrame
    requires Joins(link) == if s.hub.viewer.Some? then 1 else 0
    ensures SlotsOk(SysNext(s, HostConnects))
  {
    HostConnectsKeepsConns(s);
    HostConnectsKeepsHolders(s, link);
  }

  // More viewers announced: nothing else that is known of the run changes.
  lemma HolderAddedKeepsOut(out: seq<Body>, h: H.Host, r: Run, m: Run)
    requires OutOk(out, h.session, r) && HostOk(h, r)
    requires m.number == r.number && m.place == r.place && m.relayed == r.relayed
    ensures OutOk(out, h.session, m) && HostOk(h, m)
  {
  }

  lemma NoAnswersOk(link: seq<Frame>, viewers: nat, r: Run, session: nat)
    requires forall i :: 0 <= i < |link| ==> !link[i].RelayedFrame?
    ensures InOk(link, viewers, r, session)
  {
  }

  lemma HostConnectsKeepsInv(s: Sys)
    requires Inv(s) && !s.registered
    ensures Inv(SysNext(s, HostConnects))
  {
    var n := SysNext(s, HostConnects);
    var link := HostConnectsLink(s);
    HostConnectsKeepsSlots(s, link);
    HostConnectsStreams(s);
    NoAnswersOk(link, |s.viewers|, n.run, Base(s.host));
    HolderAddedKeepsOut(s.hostOut, s.host, s.run, n.run);
    HolderAddedKeepsViewers(s, n);
  }

  // What a viewer's registration writes, with the new state named.
  lemma ViewerConnectsShape(s: Sys, key: Option<string>) returns (n: Sys)
    requires SlotsOk(s)
    ensures n == SysNext(s, ViewerConnects(key))
    ensures n.viewers == s.viewers + [Viewer(Opened(key), [], true)]
    ensures OnlyMoves(s.run, n.run, 0) && n.run.place == s.run.place && n.run.relayed == s.run.relayed
    ensures n.host == s.host && n.hub.host == s.hub.host && n.hostOut == s.hostOut && n.late == s.late
    ensures n.registered == s.registered && n.hub.viewer == Some(ViewerConn(|s.viewers|))
    ensures forall v :: v != |s.viewers| ==> Stream(n.hub, ViewerConn(v)) == Stream(s.hub, ViewerConn(v))
    ensures Stream(n.hub, ViewerConn(|s.viewers|)) == [ConfigFrame]
    ensures ToHost(n) == if HostReading(s) then ToHost(s) + [JoinedFrame] else ToHost(s)
    ensures n.run.holders == if HostReading(s) then s.run.holders + [|s.viewers|] else s.run.holders
  {
    n := SysNext(s, ViewerConnects(key));
    assert Future(s, ViewerConn(|s.viewers|));
  }

  lemma ViewerConnectsFuture(s: Sys, n: Sys, key: Option<string>)
    requires SlotsOk(s) && n == SysNext(s, ViewerConnects(key))
    ensures forall c :: Future(n, c) ==> Stream(n.hub, c) == []
  {
    forall c | Future(n, c)
      ensures Stream(n.hub, c) == []
    {
      assert Future(s, c);
    }
  }

  lemma ViewerConnectsKeepsConns(s: Sys, key: Option<string>)
    requires SlotsOk(s)
    ensures ConnsOk(SysNext(s, ViewerConnects(key)))
  {
    var n := SysNext(s, ViewerConnects(key));
    ViewerConnectsFuture(s, n, key);
    assert n.hub.broken == {} && n.registered == s.registered;
  }

  // One more viewer-joined on the link, and its viewer among the holders.
  lemma OneMoreHolder(link: seq<Frame>, holders: seq<nat>, base: nat, v: nat)
    returns (longer: seq<Frame>, more: seq<nat>)
    requires |holders| == base + Joins(link) && forall i :: 0 <= i < |holders| ==> holders[i] < v
    ensures longer == link + [JoinedFrame] && more == holders + [v]
    ensures |more| == base + Joins(longer) && more[|more| - 1] == v
    ensures forall i :: 0 <= i < |more| ==> more[i] < v + 1
    ensures link != [] ==> longer[0] == link[0]
  {
    longer, more := link + [JoinedFrame], holders + [v];
    JoinsAppend(link, JoinedFrame);
  }

  lemma HolderAdded(s: Sys, n: Sys)
    requires HoldersOk(s) && n.host == s.host && n.registered == s.registered && |n.viewers| == |s.viewers| + 1
    requires n.hub.host == s.hub.host && n.hub.viewer == Some(ViewerConn(|s.viewers|))
    requires n.run.number == s.run.number
    requires ToHost(n) == if HostReading(s) then ToHost(s) + [JoinedFrame] else ToHost(s)
    requires n.run.holders == if HostReading(s) then s.run.holders + [|s.viewers|] else s.run.holders
    ensures HoldersOk(n)
  {
    if HostReading(s) {
      var longer, more := OneMoreHolder(ToHost(s), s.run.holders, Base(s.host), |s.viewers|);
      assert ToHost(n) == longer && n.run.holders == more;
    }
  }

  lemma ViewerConnectsKeepsSlots(s: Sys, key: Option<string>)
    requires SlotsOk(s)
    ensures SlotsOk(SysNext(s, ViewerConnects(key)))
  {
    var n := ViewerConnectsShape(s, key);
    ViewerConnectsKeepsConns(s, key);
    HolderAdded(s, n);
  }

  lemma NewViewerOk(v: nat, key: Option<string>, r: Run)
    ensures ViewerOk(v, Viewer(Opened(key), [], true), [ConfigFrame], r)
  {
  }

  lemma InAfterJoin(link: seq<Frame>, viewers: nat, r: Run, session: nat, longer: seq<Frame>, m: Run)
    requires InOk(link, viewers, r, session) && OnlyMoves(r, m, 0) && m.place == r.place
    requires longer == link || longer == link + [JoinedFrame]
    ensures InOk(longer, viewers + 1, m, session)
  {
    assert forall i :: 0 <= i < |link| ==> longer[i] == link[i] && longer[..i] == link[..i];
  }

  lemma ViewerAddedKeepsViewers(s: Sys, n: Sys, key: Option<string>)
    requires ViewersOk(s) && n.viewers == s.viewers + [Viewer(Opened(key), [], true)]
    requires OnlyMoves(s.run, n.run, 0) && n.run.place == s.run.place
    requires forall v :: v != |s.viewers| ==> Stream(n.hub, ViewerConn(v)) == Stream(s.hub, ViewerConn(v))
    requires Stream(n.hub, ViewerConn(|s.viewers|)) == [ConfigFrame]
    ensures ViewersOk(n)
  {
    HolderAddedKeepsViewers(s, n);
    NewViewerOk(|s.viewers|, key, n.run);
  }

  lemma ViewerConnectsKeepsInv(s: Sys, key: Option<string>)
    requires Inv(s)
    ensures Inv(SysNext(s, ViewerConnects(key)))
  {
    var n := ViewerConnectsShape(s, key);
    ViewerConnectsKeepsSlots(s, key);
    assert SlotsOk(n);
    ViewerAddedKeepsViewers(s, n, key);
    HolderAddedKeepsOut(s.hostOut, s.host, s.run, n.run);
    InAfterJoin(ToHost(s), |s.viewers|, s.run, Base(s.host), ToHost(n), n.run);
  }

  // The slots change, and which read loops run; no link, page or answer does.
  ghost predicate SameLinks(s: Sys, n: Sys) {
    && n.host == s.host && n.run == s.run && n.registered == s.registered && n.hostOut == s.hostOut && n.late == s.late
    && |n.viewers| == |s.viewers| && n.hub.broken == s.hub.broken
    && (n.hub.host == s.hub.host || n.hub.host.None?) && (n.hub.viewer == s.hub.viewer || n.hub.viewer.None?)
    && (forall c :: Stream(n.hub, c) == Stream(s.hub, c))
    && (forall v :: 0 <= v < |s.viewers| ==>
          n.viewers[v].page == s.viewers[v].page && n.viewers[v].up == s.viewers[v].up)
  }

  lemma SameLinksKeepInv(s: Sys, n: Sys)
    requires Inv(s) && SameLinks(s, n)
    ensures Inv(n)
  {
    assert ToHost(n) == ToHost(s);
    forall v | 0 <= v < |s.viewers|
      ensures ViewerOk(v, n.viewers[v], Stream(n.hub, ViewerConn(v)), n.run)
    {
      assert ViewerOk(v, s.viewers[v], Stream(s.hub, ViewerConn(v)), s.run);
    }
  }

  // ------------------------------------------------------------ the hub relays

  lemma OfferArrives(v: nat, w: Viewer, down: seq<Frame>, r: Run, b: Body, m: Run)
    requires ViewerOk(v, w, down, r) && OnlyMoves(r, m, b.session)
    requires b.OfferBody? && b.run == r.number && r.relayed < b.session <= m.relayed
    requires PlaceOf(m.place, b.session) == AtPage(v) && Holds(m.holders, v, b.session)
    ensures ViewerOk(v, w, down + [RelayedFrame(b)], m)
  {
    forall k | HeldBy(r, v, k, PlaceOf(r.place, k))
      ensures HeldBy(m, v, k, PlaceOf(r.place, k))
    {
    }
  }

  lemma RelayedOfferMoves(r: Run, b: Body, viewer: Option<Conn>)
    requires b.OfferBody? && r.relayed < b.session
    ensures
      var m := RelayedOffer(r, b, viewer);
      && OnlyMoves(r, m, b.session) && m.relayed == b.session && m.holders == r.holders
      && PlaceOf(m.place, b.session) == if viewer.Some? then AtPage(viewer.value.number) else Gone
  {
  }

  lemma RelayKeepsViewer(v: nat, w: Viewer, down: seq<Frame>, r: Run, b: Body, viewer: Option<Conn>)
    requires ViewerOk(v, w, down, r) && b.OfferBody? && b.run == r.number && r.relayed < b.session
    requires PlaceOf(r.place, b.session) == AtHub
    requires viewer == Some(ViewerConn(v)) ==> Holds(r.holders, v, b.session)
    requires viewer.Some? ==> viewer.value.role == ViewerRole
    ensures
      var longer := if viewer == Some(ViewerConn(v)) then down + [RelayedFrame(b)] else down;
      ViewerOk(v, w, longer, RelayedOffer(r, b, viewer))
  {
    RelayedOfferMoves(r, b, viewer);
    if viewer == Some(ViewerConn(v)) {
      OfferArrives(v, w, down, r, b, RelayedOffer(r, b, viewer));
    } else {
      ViewerUntouched(v, w, down, r, RelayedOffer(r, b, viewer), b.session);
    }
  }

  lemma HubReadsHostKeepsViewer(s: Sys, v: nat)
    requires Inv(s) && HostReading(s) && s.hostOut != [] && v < |s.viewers|
    ensures var n := OnHubReadsHost(s); ViewerOk(v, n.viewers[v], Stream(n.hub, ViewerConn(v)), n.run)
  {
    RelayKeepsViewer(v, s.viewers[v], Stream(s.hub, ViewerConn(v)), s.run, s.hostOut[0], s.hub.viewer);
  }

  lemma HubReadsHostKeepsInv(s: Sys)
    requires Inv(s) && HostReading(s) && s.hostOut != []
    ensures Inv(OnHubReadsHost(s))
  {
    var n := OnHubReadsHost(s);
    assert ToHost(n) == ToHost(s);
    RelayedOfferMoves(s.run, s.hostOut[0], s.hub.viewer);
    InUntouched(ToHost(s), |s.viewers|, s.run, Base(s.host), n.run, s.hostOut[0].session);
    forall v | 0 <= v < |s.viewers|
      ensures ViewerOk(v, n.viewers[v], Stream(n.hub, ViewerConn(v)), n.run)
    {
      HubReadsHostKeepsViewer(s, v);
    }
  }

  // The first answer of a viewer leaves its link.
  lemma AnswerLeaves(v: nat, w: Viewer, down: seq<Frame>, r: Run, to: Place)
    requires ViewerOk(v, w, down, r) && w.up != []
    ensures ViewerOk(v, w.(up := w.up[1..]), down, Moved(r, w.up[0].run, w.up[0].session, to))
  {
    var m := Moved(r, w.up[0].run, w.up[0].session, to);
    if w.up[0].run == r.number {
      DownUntouched(v, down, r, m, w.up[0].session);
      HandlersUntouched(v, w.page.handlers, r, m, w.up[0].session);
    }
  }

  lemma HubReadsViewerKeepsViewers(s: Sys, v: nat)
    requires Inv(s) && v < |s.viewers| && s.viewers[v].up != []
    ensures ViewersOk(OnHubReadsViewer(s, v))
  {
    var n, b := OnHubReadsViewer(s, v), s.viewers[v].up[0];
    assert ViewerOk(v, s.viewers[v], Stream(s.hub, ViewerConn(v)), s.run);
    forall u | 0 <= u < |s.viewers|
      ensures ViewerOk(u, n.viewers[u], Stream(n.hub, ViewerConn(u)), n.run)
    {
      assert Stream(n.hub, ViewerConn(u)) == Stream(s.hub, ViewerConn(u));
      if u == v {
        AnswerLeaves(v, s.viewers[v], Stream(s.hub, ViewerConn(v)), s.run, if s.hub.host.Some? then AtHost else Gone);
      } else if b.run == s.run.number {
        ViewerUntouched(u, s.viewers[u], Stream(s.hub, ViewerConn(u)), s.run, n.run, b.session);
      }
    }
  }

  lemma AnswersStay(link: seq<Frame>, viewers: nat, r: Run, session: nat, m: Run, b: Body)
    requires InOk(link, viewers, r, session) && m == Moved(r, b.run, b.session, AtHost)
    requires b.run == r.number ==> PlaceOf(r.place, b.session) != AtHost
    ensures forall i :: 0 <= i < |link| && Current(link[i], r) ==>
      AnswerOk(link[i].body, viewers, m) && (b.run == r.number ==> link[i].body.session != b.session)
  {
    forall i | 0 <= i < |link| && Current(link[i], r)
      ensures AnswerOk(link[i].body, viewers, m) && (b.run == r.number ==> link[i].body.session != b.session)
    {
      assert AnswerOk(link[i].body, viewers, r);
    }
  }

  lemma Prefixes(link: seq<Frame>, f: Frame)
    ensures forall i :: 0 <= i < |link| ==> (link + [f])[i] == link[i] && (link + [f])[..i] == link[..i]
    ensures (link + [f])[..|link|] == link && (link + [f])[|link|] == f
  {
  }

  // An answer of the current run joins the link behind a viewer-joined newer
  // than its session, unless its sender is that session's viewer.
  lemma InAppended(link: seq<Frame>, viewers: nat, r: Run, session: nat, b: Body)
    requires InOk(link, viewers, r, session)
    requires b.AnswerBody? && b.run <= r.number && b.viewer < viewers
    requires b.run == r.number ==> HeldBy(r, b.viewer, b.session, Answered(b.viewer))
    requires |r.holders| == session + Joins(link)
    ensures InOk(link + [RelayedFrame(b)], viewers, Moved(r, b.run, b.session, AtHost), session)
  {
    var m := Moved(r, b.run, b.session, AtHost);
    AnswersStay(link, viewers, r, session, m, b);
    Prefixes(link, RelayedFrame(b));
    NewFrameOk(link, viewers, r, session, m, b, link + [RelayedFrame(b)]);
  }

  lemma NewFrameOk(link: seq<Frame>, viewers: nat, r: Run, session: nat, m: Run, b: Body, longer: seq<Frame>)
    requires InOk(link, viewers, r, session) && m.number == r.number && m.holders == r.holders
    requires |longer| == |link| + 1 && longer[|link|] == RelayedFrame(b) && longer[..|link|] == link
    requires forall i :: 0 <= i < |link| ==> longer[i] == link[i] && longer[..i] == link[..i]
    requires forall i :: 0 <= i < |link| && Current(link[i], r) ==>
      AnswerOk(link[i].body, viewers, m) && (b.run == r.number ==> link[i].body.session != b.session)
    requires b.AnswerBody? && b.run <= r.number && |r.holders| == session + Joins(link)
    requires b.run == r.number ==> AnswerOk(b, viewers, m) && Holds(r.holders, b.viewer, b.session)
    ensures InOk(longer, viewers, m, session)
  {
    forall i | 0 <= i < |longer| && Current(longer[i], m)
      ensures AnswerOk(longer[i].body, viewers, m) && Outdated(longer, i, m, session)
    {
      if i < |link| {
        SameFrame(link, i, longer, r, m, session);
      } else {
        LastFrame(link, longer, m, session, b);
      }
    }
    NewFrameDistinct(link, r, b, longer);
  }

  lemma SameFrame(link: seq<Frame>, i: nat, longer: seq<Frame>, r: Run, m: Run, session: nat)
    requires i < |link| && i < |longer| && longer[i] == link[i] && longer[..i] == link[..i] && m.holders == r.holders
    requires IsAnswer(link[i]) && 1 <= link[i].body.session <= |r.holders| && Outdated(link, i, r, session)
    ensures Outdated(longer, i, m, session)
  {
  }

  lemma LastFrame(link: seq<Frame>, longer: seq<Frame>, m: Run, session: nat, b: Body)
    requires |longer| == |link| + 1 && longer[|link|] == RelayedFrame(b) && longer[..|link|] == link
    requires b.AnswerBody? && Holds(m.holders, b.viewer, b.session) && |m.holders| == session + Joins(link)
    ensures Outdated(longer, |link|, m, session)
  {
  }

  lemma NewFrameDistinct(link: seq<Frame>, r: Run, b: Body, longer: seq<Frame>)
    requires |longer| == |link| + 1 && longer[|link|] == RelayedFrame(b)
    requires forall i :: 0 <= i < |link| ==> longer[i] == link[i]
    requires forall i, j :: 0 <= i < j < |link| && Current(link[i], r) && Current(link[j], r) ==>
      link[i].body.session != link[j].body.session
    requires forall i :: 0 <= i < |link| && Current(link[i], r) && b.run == r.number ==>
      link[i].body.session != b.session
    ensures forall i, j :: 0 <= i < j < |longer| && Current(longer[i], r) && Current(longer[j], r) ==>
      longer[i].body.session != longer[j].body.session
  {
  }

  lemma AnswerArrives(s: Sys, v: nat)
    requires Inv(s) && v < |s.viewers| && s.viewers[v].up != []
    ensures
      var n := OnHubReadsViewer(s, v);
      Joins(ToHost(n)) == Joins(ToHost(s)) && InOk(ToHost(n), |n.viewers|, n.run, Base(n.host))
  {
    var n, b := OnHubReadsViewer(s, v), s.viewers[v].up[0];
    assert ViewerOk(v, s.viewers[v], Stream(s.hub, ViewerConn(v)), s.run);
    if HostReading(s) {
      JoinsAppend(ToHost(s), RelayedFrame(b));
      InAppended(ToHost(s), |s.viewers|, s.run, Base(s.host), b);
    } else {
      assert ToHost(n) == ToHost(s);
      if b.run == s.run.number {
        InUntouched(ToHost(s), |s.viewers|, s.run, Base(s.host), n.run, b.session);
      }
    }
  }

  lemma HubReadsViewerKeepsConns(s: Sys, v: nat)
    requires ConnsOk(s) && v < |s.viewers| && s.viewers[v].up != []
    ensures ConnsOk(OnHubReadsViewer(s, v))
  {
    var n := OnHubReadsViewer(s, v);
    forall c | Future(n, c)
      ensures Stream(n.hub, c) == []
    {
      assert Future(s, c);
    }
  }

  // The link to the host gets the answer or stays as it is.
  lemma LinkAfterAnswer(s: Sys, v: nat) returns (n: Sys)
    requires v < |s.viewers| && s.viewers[v].up != [] && s.hub.broken == {}
    ensures n == OnHubReadsViewer(s, v)
    ensures ToHost(n) == ToHost(s) || ToHost(n) == ToHost(s) + [RelayedFrame(s.viewers[v].up[0])]
    ensures n.host == s.host && n.registered == s.registered && |n.viewers| == |s.viewers|
    ensures n.hub.host == s.hub.host && n.hub.viewer == s.hub.viewer
    ensures n.run.number == s.run.number && n.run.holders == s.run.holders
  {
    n := OnHubReadsViewer(s, v);
  }

  lemma HubReadsViewerKeepsSlots(s: Sys, v: nat)
    requires SlotsOk(s) && v < |s.viewers| && s.viewers[v].up != []
    requires Joins(ToHost(OnHubReadsViewer(s, v))) == Joins(ToHost(s))
    ensures SlotsOk(OnHubReadsViewer(s, v))
  {
    var n := LinkAfterAnswer(s, v);
    HubReadsViewerKeepsConns(s, v);
  }

  lemma HubReadsViewerKeepsHost(s: Sys, v: nat)
    requires Inv(s) && v < |s.viewers| && s.viewers[v].up != []
    ensures var n := OnHubReadsViewer(s, v); HostOk(n.host, n.run) && OutOk(n.hostOut, n.host.session, n.run)
  {
    var n, b := OnHubReadsViewer(s, v), s.viewers[v].up[0];
    assert ViewerOk(v, s.viewers[v], Stream(s.hub, ViewerConn(v)), s.run);
    if b.run == s.run.number {
      OutUntouched(s.hostOut, s.host.session, s.run, n.run, b.session);
    }
  }

  lemma HubReadsViewerKeepsInv(s: Sys, v: nat)
    requires Inv(s) && v < |s.viewers| && s.viewers[v].up != []
    ensures Inv(OnHubReadsViewer(s, v))
  {
    AnswerArrives(s, v);
    HubReadsViewerKeepsSlots(s, v);
    HubReadsViewerKeepsHost(s, v);
    HubReadsViewerKeepsViewers(s, v);
  }

  // ------------------------------------------------------------ the pages run

  // Only viewer `v` and the one token `n` it has change.
  ghost predicate OnlyViewer(s: Sys, v: nat, w: Viewer, hub: HubState, m: Run, n: nat) {
    && v < |s.viewers| && OnlyMoves(s.run, m, n) && m.holders == s.run.holders && m.relayed == s.run.relayed
    && (m.place == s.run.place || (OfViewer(PlaceOf(s.run.place, n), v) && PlaceOf(m.place, n) != Unsent))
    && hub.host == s.hub.host && hub.viewer == s.hub.viewer && hub.broken == s.hub.broken
    && (forall c :: c != ViewerConn(v) ==> Stream(hub, c) == Stream(s.hub, c))
    && ViewerOk(v, w, Stream(hub, ViewerConn(v)), m)
  }

  function WithViewer(s: Sys, v: nat, w: Viewer, hub: HubState, m: Run): Sys
    requires v < |s.viewers|
  {
    s.(viewers := s.viewers[v := w], hub := hub, run := m)
  }

  lemma OnlyViewerKeepsSlots(s: Sys, v: nat, w: Viewer, hub: HubState, m: Run, n: nat)
    requires SlotsOk(s) && OnlyViewer(s, v, w, hub, m, n)
    ensures SlotsOk(WithViewer(s, v, w, hub, m))
  {
    assert Stream(hub, HostConn(s.run.number)) == ToHost(s);
  }

  lemma OnlyViewerKeepsViewers(s: Sys, v: nat, w: Viewer, hub: HubState, m: Run, n: nat)
    requires ViewersOk(s) && OnlyViewer(s, v, w, hub, m, n)
    ensures ViewersOk(WithViewer(s, v, w, hub, m))
  {
    forall u | 0 <= u < |s.viewers| && u != v
      ensures ViewerOk(u, s.viewers[u], Stream(hub, ViewerConn(u)), m)
    {
      OtherViewerKept(s, v, w, hub, m, n, u);
    }
  }

  lemma OtherViewerKept(s: Sys, v: nat, w: Viewer, hub: HubState, m: Run, n: nat, u: nat)
    requires ViewersOk(s) && OnlyViewer(s, v, w, hub, m, n) && u < |s.viewers| && u != v
    ensures ViewerOk(u, s.viewers[u], Stream(hub, ViewerConn(u)), m)
  {
    assert Stream(hub, ViewerConn(u)) == Stream(s.hub, ViewerConn(u));
    if m.place == s.run.place {
      ViewerKept(u, s.viewers[u], Stream(s.hub, ViewerConn(u)), s.run, m);
    } else {
      ViewerUntouched(u, s.viewers[u], Stream(s.hub, ViewerConn(u)), s.run, m, n);
    }
  }

  lemma OnlyViewerKeepsLinks(s: Sys, v: nat, w: Viewer, hub: HubState, m: Run, n: nat)
    requires Inv(s) && OnlyViewer(s, v, w, hub, m, n)
    ensures OutOk(s.hostOut, s.host.session, m) && HostOk(s.host, m)
    ensures InOk(ToHost(s), |s.viewers|, m, Base(s.host))
  {
    if m.place != s.run.place {
      OutUntouched(s.hostOut, s.host.session, s.run, m, n);
      InUntouched(ToHost(s), |s.viewers|, s.run, Base(s.host), m, n);
    }
  }

  lemma OnlyViewerKeepsInv(s: Sys, v: nat, w: Viewer, hub: HubState, m: Run, n: nat)
    requires Inv(s) && OnlyViewer(s, v, w, hub, m, n)
    ensures Inv(WithViewer(s, v, w, hub, m))
  {
    OnlyViewerKeepsLinks(s, v, w, hub, m, n);
    OnlyViewerKeepsSlots(s, v, w, hub, m, n);
    OnlyViewerKeepsViewers(s, v, w, hub, m, n);
    assert Stream(hub, HostConn(s.run.number)) == ToHost(s);
  }

  // The page has begun to handle offer `b`.
  ghost predicate TakenOffer(p: PageState, n: PageState, b: Body) {
    exists key :: n.handlers == p.handlers[p.peers := Handler(b.session, b.run, key, SettingRemote)]
  }

  // What reading the next frame does to the page's handlers: an accepted offer
  // adds one, under a number of its own.
  lemma FrameEffect(p: PageState, f: Frame, fp: Option<string>, readable: bool) returns (n: PageState)
    ensures n == PageNext(p, OnFrame(f, fp, readable))
    ensures
      || (n.peers == p.peers && n.handlers == p.handlers)
      || (IsOffer(f) && n.peers > p.peers && TakenOffer(p, n, f.body))
  {
    n := PageNext(p, OnFrame(f, fp, readable));
  }

  lemma FirstTaken(v: nat, w: Viewer, down: seq<Frame>, r: Run, p: PageState, m: Run)
    requires ViewerOk(v, w, down, r) && down != []
    requires
      || (p.peers == w.page.peers && p.handlers == w.page.handlers)
      || (IsOffer(down[0]) && p.peers > w.page.peers && TakenOffer(w.page, p, down[0].body))
    requires
      var to := if p.peers > w.page.peers then InHandler(v, w.page.peers) else Gone;
      m == if !down[0].RelayedFrame? then r else Moved(r, down[0].body.run, down[0].body.session, to)
    ensures ViewerOk(v, w.(page := p), down[1..], m)
  {
    var rest := down[1..];
    assert forall i :: 0 <= i < |rest| ==> rest[i] == down[i + 1];
    if Current(down[0], r) {
      UpUntouched(v, w.up, r, m, down[0].body.session);
      HandlersUntouched(v, w.page.handlers, r, m, down[0].body.session);
    }
  }

  lemma PageReadsKeepsInv(s: Sys, v: nat, fp: Option<string>, readable: bool)
    requires Inv(s) && v < |s.viewers| && Stream(s.hub, ViewerConn(v)) != []
    ensures Inv(OnPageReads(s, v, fp, readable))
  {
    var down, w := Stream(s.hub, ViewerConn(v)), s.viewers[v];
    var n := OnPageReads(s, v, fp, readable);
    assert ViewerOk(v, w, down, s.run);
    var p := FrameEffect(w.page, down[0], fp, readable);
    FirstTaken(v, w, down, s.run, p, n.run);
    var session := if IsOffer(down[0]) then down[0].body.session else 0;
    OnlyViewerKeepsInv(s, v, w.(page := p), Popped(s.hub, ViewerConn(v)), n.run, session);
  }

  // The three ways a handler run can be resumed.
  lemma ResumeEffect(p: PageState, k: nat, sdp: string, v: nat) returns (n: PageState)
    requires k in p.handlers
    ensures n == PageNext(p, Advance(k, sdp, v))
    ensures |n.sent| > |p.sent| ==>
      && n.handlers == p.handlers - {k}
      && n.sent == p.sent + [AnswerBody(p.handlers[k].session, sdp, p.handlers[k].run, v)]
    ensures |n.sent| <= |p.sent| && k in n.handlers ==>
      && n.handlers == p.handlers[k := n.handlers[k]] && n.sent == p.sent
      && n.handlers[k].session == p.handlers[k].session && n.handlers[k].run == p.handlers[k].run
    ensures |n.sent| <= |p.sent| && k !in n.handlers ==> n.handlers == p.handlers - {k} && n.sent == p.sent
  {
    n := PageNext(p, Advance(k, sdp, v));
  }

  lemma HandlerGoesOn(v: nat, handlers: map<nat, Handler>, r: Run, k: nat, h: Handler)
    requires HandlersOk(v, handlers, r) && k in handlers && h.session == handlers[k].session && h.run == handlers[k].run
    ensures HandlersOk(v, handlers[k := h], r)
  {
  }

  // A handler run ends, and its token goes elsewhere.
  lemma HandlerEnds(v: nat, w: Viewer, down: seq<Frame>, r: Run, k: nat, p: PageState, to: Place)
    requires ViewerOk(v, w, down, r) && k in w.page.handlers && p.handlers == w.page.handlers - {k}
    ensures ViewerOk(v, w.(page := p), down, Moved(r, w.page.handlers[k].run, w.page.handlers[k].session, to))
  {
    var h := w.page.handlers[k];
    var m := Moved(r, h.run, h.session, to);
    if h.run == r.number {
      DownUntouched(v, down, r, m, h.session);
      UpUntouched(v, w.up, r, m, h.session);
      forall j | j in p.handlers && p.handlers[j].run == r.number
        ensures HeldBy(m, v, p.handlers[j].session, InHandler(v, j))
      {
        StillHeld(r, m, h.session, v, p.handlers[j].session, InHandler(v, j));
      }
    }
  }

  lemma AnswerSent(v: nat, up: seq<Body>, r: Run, m: Run, a: Body)
    requires UpOk(v, up, m) && a.AnswerBody? && a.run <= m.number && a.viewer == v
    requires a.run == m.number ==> HeldBy(m, v, a.session, Answered(v))
    requires forall i :: 0 <= i < |up| && up[i].run == m.number && a.run == m.number ==> up[i].session != a.session
    ensures UpOk(v, up + [a], m)
  {
  }

  lemma HandlerAnswers(v: nat, w: Viewer, down: seq<Frame>, r: Run, k: nat, p: PageState, a: Body)
    requires ViewerOk(v, w, down, r) && k in w.page.handlers && p.handlers == w.page.handlers - {k}
    requires a.AnswerBody? && a.viewer == v
    requires a.session == w.page.handlers[k].session && a.run == w.page.handlers[k].run
    ensures ViewerOk(v, w.(page := p, up := w.up + [a]), down, Moved(r, a.run, a.session, Answered(v)))
  {
    var m := Moved(r, a.run, a.session, Answered(v));
    HandlerEnds(v, w, down, r, k, p, Answered(v));
    assert a.run == r.number ==> HeldBy(r, v, a.session, InHandler(v, k));
    assert forall i :: 0 <= i < |w.up| && w.up[i].run == r.number ==> HeldBy(r, v, w.up[i].session, Answered(v));
    AnswerSent(v, w.up, r, m, a);
  }

  lemma PageResumesKeepsInv(s: Sys, v: nat, k: nat, sdp: string)
    requires Inv(s) && v < |s.viewers| && k in s.viewers[v].page.handlers
    ensures Inv(OnPageResumes(s, v, k, sdp))
  {
    var w, down := s.viewers[v], Stream(s.hub, ViewerConn(v));
    var n, h := OnPageResumes(s, v, k, sdp), w.page.handlers[k];
    assert ViewerOk(v, w, down, s.run);
    var p := ResumeEffect(w.page, k, sdp, v);
    if |p.sent| > |w.page.sent| {
      var a := p.sent[|p.sent| - 1];
      HandlerAnswers(v, w, down, s.run, k, p, a);
      OnlyViewerKeepsInv(s, v, w.(page := p, up := w.up + [a]), s.hub, n.run, h.session);
    } else if k in p.handlers {
      HandlerGoesOn(v, w.page.handlers, s.run, k, p.handlers[k]);
      OnlyViewerKeepsInv(s, v, w.(page := p), s.hub, s.run, 0);
    } else {
      HandlerEnds(v, w, down, s.run, k, p, Gone);
      OnlyViewerKeepsInv(s, v, w.(page := p), s.hub, n.run, h.session);
    }
  }

  lemma PageThrowsKeepsInv(s: Sys, v: nat, k: nat)
    requires Inv(s) && v < |s.viewers| && k in s.viewers[v].page.handlers
    ensures Inv(OnPageThrows(s, v, k))
  {
    var w, down := s.viewers[v], Stream(s.hub, ViewerConn(v));
    var n, p := OnPageThrows(s, v, k), PageNext(s.viewers[v].page, Throw(k));
    assert ViewerOk(v, w, down, s.run);
    HandlerEnds(v, w, down, s.run, k, p, Gone);
    OnlyViewerKeepsInv(s, v, w.(page := p), s.hub, n.run, w.page.handlers[k].session);
  }

  lemma PageLocalKeepsInv(s: Sys, v: nat, e: PageEvent)
    requires Inv(s) && v < |s.viewers| && IsLocal(e)
    ensures Inv(WithPage(s, v, PageNext(s.viewers[v].page, e)))
  {
    var w, p := s.viewers[v], PageNext(s.viewers[v].page, e);
    assert p.handlers == w.page.handlers;
    assert ViewerOk(v, w, Stream(s.hub, ViewerConn(v)), s.run);
    OnlyViewerKeepsInv(s, v, w.(page := p), s.hub, s.run, 0);
  }

  // ------------------------------------------------------------- any step

  lemma HostReadsStep(s: Sys, fp: Option<string>, saved: bool, now: nat)
    requires Inv(s) && InRange(s)
    ensures Inv(SysNext(s, HostReads(fp, saved, now)))
  {
    if ToHost(s) != [] && (s.host.doing.Idle? || s.host.doing.AwaitingConfig?) {
      HostReadsKeepsInv(s, fp, saved, now);
    }
  }

  lemma HostStepsStep(s: Sys, event: H.Event, sdp: string)
    requires Inv(s) && InRange(s)
    ensures Inv(SysNext(s, HostSteps(event, sdp)))
  {
    if !event.Receive? {
      HostStepsKeepsInv(s, event, sdp);
    }
  }

  lemma HostComesKeepsInv(s: Sys)
    requires Inv(s)
    ensures Inv(SysNext(s, HostConnects))
  {
    if !s.registered {
      HostConnectsKeepsInv(s);
    }
  }

  lemma LeavingKeepsLinks(s: Sys, e: SysEvent)
    requires SlotsOk(s) && (e.HostLeaves? || e.ViewerLeaves? || e.OldHostLeaves?)
    ensures SameLinks(s, SysNext(s, e))
  {
  }

  lemma LeavingKeepsInv(s: Sys, e: SysEvent)
    requires Inv(s) && (e.HostLeaves? || e.ViewerLeaves? || e.OldHostLeaves?)
    ensures Inv(SysNext(s, e))
  {
    LeavingKeepsLinks(s, e);
    SameLinksKeepInv(s, SysNext(s, e));
  }

  lemma OldHostSendsKeepsInv(s: Sys, run: nat, session: nat, sdp: string)
    requires Inv(s)
    ensures Inv(SysNext(s, OldHostSends(run, session, sdp)))
  {
    if run < s.run.number {
      LateKeepsInv(s, s.late + [OfferBody(session, sdp, run)]);
    }
  }

  lemma HubReadsLateKeepsInv(s: Sys, i: nat)
    requires Inv(s)
    ensures Inv(SysNext(s, HubReadsLate(i)))
  {
    if i < |s.late| {
      LateRelayKeepsInv(s, s.late[i]);
      LateKeepsInv(s.(hub := Relayed(s.hub, HostRole, s.late[i])), s.late[..i] + s.late[i + 1..]);
    }
  }

  lemma HubReadsHostStep(s: Sys)
    requires Inv(s)
    ensures Inv(SysNext(s, HubReadsHost))
  {
    if HostReading(s) && s.hostOut != [] {
      HubReadsHostKeepsInv(s);
    }
  }

  lemma HubReadsViewerStep(s: Sys, v: nat)
    requires Inv(s)
    ensures Inv(SysNext(s, HubReadsViewer(v)))
  {
    if v < |s.viewers| && s.viewers[v].reading && s.viewers[v].up != [] {
      HubReadsViewerKeepsInv(s, v);
    }
  }

  lemma PageReadsStep(s: Sys, v: nat, fp: Option<string>, readable: bool)
    requires Inv(s)
    ensures Inv(SysNext(s, PageReads(v, fp, readable)))
  {
    if v < |s.viewers| && Stream(s.hub, ViewerConn(v)) != [] {
      PageReadsKeepsInv(s, v, fp, readable);
    }
  }

  lemma PageResumesStep(s: Sys, v: nat, k: nat, sdp: string)
    requires Inv(s)
    ensures Inv(SysNext(s, PageResumes(v, k, sdp)))
  {
    if v < |s.viewers| && k in s.viewers[v].page.handlers {
      PageResumesKeepsInv(s, v, k, sdp);
    }
  }

  lemma PageThrowsStep(s: Sys, v: nat, k: nat)
    requires Inv(s)
    ensures Inv(SysNext(s, PageThrows(v, k)))
  {
    if v < |s.viewers| && k in s.viewers[v].page.handlers {
      PageThrowsKeepsInv(s, v, k);
    }
  }

  lemma PageLocalStep(s: Sys, v: nat, e: PageEvent)
    requires Inv(s)
    ensures Inv(SysNext(s, PageLocal(v, e)))
  {
    if v < |s.viewers| && IsLocal(e) {
      PageLocalKeepsInv(s, v, e);
    }
  }

  // Every step of host, hub or page, in any host run.
  lemma InvStep(s: Sys, e: SysEvent)
    requires Inv(s) && InRange(s)
    ensures Inv(SysNext(s, e))
  {
    match e
    case HostConnects => HostComesKeepsInv(s);
    case HostReads(fp, saved, now) => HostReadsStep(s, fp, saved, now);
    case HostSteps(event, sdp) => HostStepsStep(s, event, sdp);
    case HostRestarts(paired) => HostRestartsKeepsInv(s, paired);
    case OldHostSends(run, session, sdp) => OldHostSendsKeepsInv(s, run, session, sdp);
    case ViewerConnects(key) => ViewerConnectsKeepsInv(s, key);
    case HubReadsHost => HubReadsHostStep(s);
    case HubReadsLate(i) => HubReadsLateKeepsInv(s, i);
    case HubReadsViewer(v) => HubReadsViewerStep(s, v);
    case PageReads(v, fp, readable) => PageReadsStep(s, v, fp, readable);
    case PageResumes(v, k, sdp) => PageResumesStep(s, v, k, sdp);
    case PageThrows(v, k) => PageThrowsStep(s, v, k);
    case PageLocal(v, change) => PageLocalStep(s, v, change);
    case _ => LeavingKeepsInv(s, e);
  }
}
