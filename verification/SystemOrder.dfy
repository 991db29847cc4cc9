// What the first host run keeps besides, as long as it is the only one: pages
// answer in order, and the host never gets two answers to one session.
module SystemOrder {
  import opened Wrappers
  import opened Devices
  import H = SessionHost
  import opened Hub
  import opened Page
  import opened System
  import opened SystemInv

  // The page answers in order, and the offers on their way to it are newer than
  // everything it has handled.
  ghost predicate PageOrder(p: PageState, down: seq<Frame>, relayed: nat) {
    && InOrder(p) && Below(p, relayed + 1)
    && (forall i :: 0 <= i < |down| && SystemInv.IsOffer(down[i]) ==>
          down[i].body.session <= relayed && Below(p, down[i].body.session))
    && (forall i, j :: 0 <= i < j < |down| && SystemInv.IsOffer(down[i]) && SystemInv.IsOffer(down[j]) ==>
          down[i].body.session < down[j].body.session)
  }

  ghost predicate PagesOrdered(s: Sys) {
    forall v :: 0 <= v < |s.viewers| ==> PageOrder(s.viewers[v].page, Stream(s.hub, ViewerConn(v)), s.run.relayed)
  }

  // An answer to the current session that the host has read is the only one.
  ghost predicate HostOrdered(h: H.Host, r: Run) {
    H.Orderly(h) && h.answers <= 1 && (h.answers > 0 ==> PlaceOf(r.place, h.session) == Gone)
  }

  ghost predicate Ordered(s: Sys) { s.run.number == 0 && PagesOrdered(s) && HostOrdered(s.host, s.run) }

  lemma OrderedStart(paired: seq<PairedDevice>)
    ensures Ordered(Start(paired))
  {
  }

  // ------------------------------------------------------------- the host

  // An answer that has been read stays where it is.
  ghost predicate GoneStays(r: Run, m: Run) { forall n :: PlaceOf(r.place, n) == Gone ==> PlaceOf(m.place, n) == Gone }

  lemma TokenMoves(r: Run, run: nat, n: nat, to: Place)
    requires run == r.number ==> PlaceOf(r.place, n) != Gone
    ensures GoneStays(r, Moved(r, run, n, to))
  {
  }

  lemma HubEventsKeepGone(s: Sys, e: SysEvent)
    requires Inv(s) && (e.HubReadsHost? || e.HubReadsLate? || e.HubReadsViewer?)
    ensures KeepsGone(s, SysNext(s, e))
  {
    match e
    case HubReadsHost =>
      if HostReading(s) && s.hostOut != [] {
        RelayedOfferMoves(s.run, s.hostOut[0], s.hub.viewer);
      }
    case HubReadsViewer(v) =>
      if v < |s.viewers| && s.viewers[v].reading && s.viewers[v].up != [] {
        assert UpOk(v, s.viewers[v].up, s.run);
        var a := s.viewers[v].up[0];
        TokenMoves(s.run, a.run, a.session, if s.hub.host.Some? then AtHost else Gone);
      }
    case _ =>
  }

  lemma PageReadsKeepsGone(s: Sys, v: nat, fp: Option<string>, readable: bool)
    requires Inv(s) && v < |s.viewers| && Stream(s.hub, ViewerConn(v)) != []
    ensures GoneStays(s.run, OnPageReads(s, v, fp, readable).run)
  {
    assert ViewerOk(v, s.viewers[v], Stream(s.hub, ViewerConn(v)), s.run);
    assert DownOk(v, Stream(s.hub, ViewerConn(v)), s.run);
  }

  lemma HandlerKeepsGone(s: Sys, v: nat, k: nat, to: Place)
    requires Inv(s) && v < |s.viewers| && k in s.viewers[v].page.handlers
    ensures var h := s.viewers[v].page.handlers[k]; GoneStays(s.run, Moved(s.run, h.run, h.session, to))
  {
    assert ViewerOk(v, s.viewers[v], Stream(s.hub, ViewerConn(v)), s.run);
    assert HandlersOk(v, s.viewers[v].page.handlers, s.run);
  }

  lemma PageResumesKeepsGone(s: Sys, v: nat, k: nat, sdp: string)
    requires Inv(s) && v < |s.viewers|
    ensures GoneStays(s.run, OnPageResumes(s, v, k, sdp).run)
  {
    if k in s.viewers[v].page.handlers {
      HandlerKeepsGone(s, v, k, Answered(v));
      HandlerKeepsGone(s, v, k, Gone);
    }
  }

  // A step that leaves the host and what it has read alone.
  ghost predicate KeepsGone(s: Sys, n: Sys) { n.host == s.host && GoneStays(s.run, n.run) }

  lemma PageReadsStepKeepsGone(s: Sys, v: nat, fp: Option<string>, readable: bool)
    requires Inv(s)
    ensures KeepsGone(s, SysNext(s, PageReads(v, fp, readable)))
  {
    if v < |s.viewers| && Stream(s.hub, ViewerConn(v)) != [] {
      PageReadsKeepsGone(s, v, fp, readable);
    }
  }

  lemma PageResumesStepKeepsGone(s: Sys, v: nat, k: nat, sdp: string)
    requires Inv(s)
    ensures KeepsGone(s, SysNext(s, PageResumes(v, k, sdp)))
  {
    if v < |s.viewers| {
      PageResumesKeepsGone(s, v, k, sdp);
    }
  }

  lemma PageThrowsStepKeepsGone(s: Sys, v: nat, k: nat)
    requires Inv(s)
    ensures KeepsGone(s, SysNext(s, PageThrows(v, k)))
  {
    if v < |s.viewers| && k in s.viewers[v].page.handlers {
      HandlerKeepsGone(s, v, k, Gone);
    }
  }

  lemma PageEventsKeepGone(s: Sys, e: SysEvent)
    requires Inv(s) && (e.PageReads? || e.PageResumes? || e.PageThrows? || e.PageLocal?)
    ensures KeepsGone(s, SysNext(s, e))
  {
    match e
    case PageReads(v, fp, readable) => PageReadsStepKeepsGone(s, v, fp, readable);
    case PageResumes(v, k, sdp) => PageResumesStepKeepsGone(s, v, k, sdp);
    case PageThrows(v, k) => PageThrowsStepKeepsGone(s, v, k);
    case PageLocal(_, _) =>
  }

  lemma HostReadsOrdered(s: Sys, fp: Option<string>, saved: bool, now: nat)
    requires Inv(s) && InRange(s) && HostOrdered(s.host, s.run) && s.run.number == 0
    requires ToHost(s) != [] && (s.host.doing.Idle? || s.host.doing.AwaitingConfig?)
    ensures var n := OnHostReads(s, fp, saved, now); HostOrdered(n.host, n.run)
  {
    var f := ToHost(s)[0];
    var h := HostReadEffect(s.host, f, fp, saved, now);
    assert IsAnswer(f) ==> Current(f, s.run);
    H.OrderlyStep(s.host, H.Receive(AsMessage(f, fp), saved, now));
  }

  lemma HostStepsOrdered(s: Sys, e: H.Event, sdp: string)
    requires Inv(s) && InRange(s) && HostOrdered(s.host, s.run) && !e.Receive?
    ensures var n := OnHostSteps(s, e, sdp); HostOrdered(n.host, n.run)
  {
    var h := HostStepEffect(s.host, e);
    H.OrderlyStep(s.host, e);
  }

  lemma HostReadsStepOrdered(s: Sys, fp: Option<string>, saved: bool, now: nat)
    requires Inv(s) && InRange(s) && Ordered(s)
    ensures var n := SysNext(s, HostReads(fp, saved, now)); HostOrdered(n.host, n.run)
  {
    if ToHost(s) != [] && (s.host.doing.Idle? || s.host.doing.AwaitingConfig?) {
      HostReadsOrdered(s, fp, saved, now);
    }
  }

  lemma HostStepsStepOrdered(s: Sys, event: H.Event, sdp: string)
    requires Inv(s) && InRange(s) && Ordered(s)
    ensures var n := SysNext(s, HostSteps(event, sdp)); HostOrdered(n.host, n.run)
  {
    if !event.Receive? {
      HostStepsOrdered(s, event, sdp);
    }
  }

  lemma ComingAndGoingOrdered(s: Sys, e: SysEvent)
    requires Ordered(s)
    requires e.HostConnects? || e.HostLeaves? || e.OldHostSends? || e.OldHostLeaves?
          || e.ViewerConnects? || e.ViewerLeaves?
    ensures var n := SysNext(s, e); HostOrdered(n.host, n.run)
  {
  }

  lemma HostStaysOrdered(s: Sys, e: SysEvent)
    requires Inv(s) && InRange(s) && Ordered(s) && !e.HostRestarts?
    ensures HostOrdered(SysNext(s, e).host, SysNext(s, e).run)
  {
    match e
    case HostReads(fp, saved, now) => HostReadsStepOrdered(s, fp, saved, now);
    case HostSteps(event, sdp) => HostStepsStepOrdered(s, event, sdp);
    case HubReadsHost => HubEventsKeepGone(s, e);
    case HubReadsLate(_) => HubEventsKeepGone(s, e);
    case HubReadsViewer(_) => HubEventsKeepGone(s, e);
    case PageReads(_, _, _) => PageEventsKeepGone(s, e);
    case PageResumes(_, _, _) => PageEventsKeepGone(s, e);
    case PageThrows(_, _) => PageEventsKeepGone(s, e);
    case PageLocal(_, _) => PageEventsKeepGone(s, e);
    case _ => ComingAndGoingOrdered(s, e);
  }

  // ------------------------------------------------------------- the pages

  lemma MoreRelayed(p: PageState, down: seq<Frame>, relayed: nat, more: nat)
    requires PageOrder(p, down, relayed) && relayed <= more
    ensures PageOrder(p, down, more)
  {
  }

  lemma NewOfferInOrder(p: PageState, down: seq<Frame>, relayed: nat, b: Body)
    requires PageOrder(p, down, relayed) && b.OfferBody? && relayed < b.session
    ensures PageOrder(p, down + [RelayedFrame(b)], b.session)
  {
  }

  lemma FrameReadInOrder(p: PageState, down: seq<Frame>, relayed: nat, fp: Option<string>, readable: bool)
    requires PageOrder(p, down, relayed) && down != []
    ensures PageOrder(PageNext(p, OnFrame(down[0], fp, readable)), down[1..], relayed)
  {
    AnswersStayInOrder(p, OnFrame(down[0], fp, readable));
    if SystemInv.IsOffer(down[0]) {
      assert Below(p, down[0].body.session);
      forall n | n > down[0].body.session
        ensures Below(PageNext(p, OnFrame(down[0], fp, readable)), n)
      {
      }
    }
  }

  // Every other event of a page leaves its handlers' sessions alone.
  lemma OtherEventInOrder(p: PageState, e: PageEvent, down: seq<Frame>, relayed: nat)
    requires PageOrder(p, down, relayed) && !e.OnFrame?
    ensures PageOrder(PageNext(p, e), down, relayed)
  {
    AnswersStayInOrder(p, e);
    BelowStays(p, e);
  }

  lemma BelowStays(p: PageState, e: PageEvent)
    requires !e.OnFrame?
    ensures forall n :: Below(p, n) ==> Below(PageNext(p, e), n)
  {
    forall n | Below(p, n)
      ensures Below(PageNext(p, e), n)
    {
    }
  }

  // Nothing the pages see changes.
  ghost predicate SamePages(s: Sys, n: Sys) {
    && |s.viewers| <= |n.viewers| && n.run.relayed == s.run.relayed
    && (forall v :: 0 <= v < |s.viewers| ==>
          n.viewers[v].page == s.viewers[v].page && Stream(n.hub, ViewerConn(v)) == Stream(s.hub, ViewerConn(v)))
    && (forall v :: |s.viewers| <= v < |n.viewers| ==>
          (exists key :: n.viewers[v].page == Opened(key)) && Stream(n.hub, ViewerConn(v)) == [ConfigFrame])
  }

  lemma SamePagesOrdered(s: Sys, n: Sys)
    requires PagesOrdered(s) && SamePages(s, n)
    ensures PagesOrdered(n)
  {
    forall v | 0 <= v < |n.viewers|
      ensures PageOrder(n.viewers[v].page, Stream(n.hub, ViewerConn(v)), n.run.relayed)
    {
      if v < |s.viewers| {
        assert PageOrder(s.viewers[v].page, Stream(s.hub, ViewerConn(v)), s.run.relayed);
      }
    }
  }

  lemma HostEventsSamePages(s: Sys, e: SysEvent)
    requires e.HostConnects? || e.HostReads? || e.HostSteps? || e.OldHostSends?
    ensures SamePages(s, SysNext(s, e))
  {
  }

  lemma LeavingSamePages(s: Sys, e: SysEvent)
    requires e.HostLeaves? || e.OldHostLeaves? || e.ViewerLeaves?
    ensures SamePages(s, SysNext(s, e))
  {
  }

  lemma ViewerRelaySamePages(s: Sys, v: nat)
    requires SlotsOk(s) && v < |s.viewers| && s.viewers[v].up != []
    ensures SamePages(s, OnHubReadsViewer(s, v))
  {
    var n := OnHubReadsViewer(s, v);
    assert forall u :: Stream(n.hub, ViewerConn(u)) == Stream(s.hub, ViewerConn(u));
  }

  lemma FirstLate(late: seq<Body>, number: nat)
    requires LateOk(late, number)
    ensures late != [] ==> late[0].run < number
  {
  }

  lemma RelaySamePages(s: Sys, e: SysEvent)
    requires SlotsOk(s) && s.late == [] && (e.HubReadsLate? || e.HubReadsViewer?)
    ensures SamePages(s, SysNext(s, e))
  {
    if e.HubReadsViewer? && e.viewer < |s.viewers| && s.viewers[e.viewer].reading && s.viewers[e.viewer].up != [] {
      ViewerRelaySamePages(s, e.viewer);
    }
  }

  lemma ViewerConnectsSamePages(s: Sys, key: Option<string>)
    requires SlotsOk(s)
    ensures SamePages(s, SysNext(s, ViewerConnects(key)))
  {
    var n := ViewerConnectsShape(s, key);
  }

  lemma HubReadsHostOrdered(s: Sys)
    requires Inv(s) && PagesOrdered(s) && HostReading(s) && s.hostOut != []
    ensures PagesOrdered(OnHubReadsHost(s))
  {
    var n, b := OnHubReadsHost(s), s.hostOut[0];
    forall v | 0 <= v < |s.viewers|
      ensures PageOrder(n.viewers[v].page, Stream(n.hub, ViewerConn(v)), n.run.relayed)
    {
      var p, down := s.viewers[v].page, Stream(s.hub, ViewerConn(v));
      if s.hub.viewer == Some(ViewerConn(v)) {
        NewOfferInOrder(p, down, s.run.relayed, b);
      } else {
        MoreRelayed(p, down, s.run.relayed, b.session);
      }
    }
  }

  // Viewer `v` gets another page state and perhaps a shorter link; no other
  // page sees anything.
  lemma OnePageOrdered(s: Sys, n: Sys, v: nat)
    requires PagesOrdered(s) && v < |s.viewers| == |n.viewers| && n.run.relayed == s.run.relayed
    requires forall u :: 0 <= u < |s.viewers| && u != v ==>
      n.viewers[u].page == s.viewers[u].page && Stream(n.hub, ViewerConn(u)) == Stream(s.hub, ViewerConn(u))
    requires PageOrder(n.viewers[v].page, Stream(n.hub, ViewerConn(v)), n.run.relayed)
    ensures PagesOrdered(n)
  {
    forall u | 0 <= u < |n.viewers|
      ensures PageOrder(n.viewers[u].page, Stream(n.hub, ViewerConn(u)), n.run.relayed)
    {
      if u != v {
        assert PageOrder(s.viewers[u].page, Stream(s.hub, ViewerConn(u)), s.run.relayed);
      }
    }
  }

  lemma PageReadsOrdered(s: Sys, v: nat, fp: Option<string>, readable: bool)
    requires PagesOrdered(s) && v < |s.viewers| && Stream(s.hub, ViewerConn(v)) != []
    ensures PagesOrdered(OnPageReads(s, v, fp, readable))
  {
    FrameReadInOrder(s.viewers[v].page, Stream(s.hub, ViewerConn(v)), s.run.relayed, fp, readable);
    OnePageOrdered(s, OnPageReads(s, v, fp, readable), v);
  }

  // The event of its own that a page goes through in an event of the system.
  function Own(e: SysEvent): PageEvent
    requires e.PageResumes? || e.PageThrows? || e.PageLocal?
  {
    match e
    case PageResumes(v, k, sdp) => Advance(k, sdp, v)
    case PageThrows(_, k) => Throw(k)
    case PageLocal(_, change) => change
  }

  lemma OwnEventPages(s: Sys, e: SysEvent)
    requires e.PageResumes? || e.PageThrows? || e.PageLocal?
    ensures
      var n := SysNext(s, e);
      && n.hub == s.hub && |n.viewers| == |s.viewers| && n.run.relayed == s.run.relayed
      && (forall u :: 0 <= u < |s.viewers| && u != e.viewer ==> n.viewers[u].page == s.viewers[u].page)
      && (e.viewer < |s.viewers| ==>
            || n.viewers[e.viewer].page == s.viewers[e.viewer].page
            || (!Own(e).OnFrame? && n.viewers[e.viewer].page == PageNext(s.viewers[e.viewer].page, Own(e))))
  {
  }

  lemma OwnEventOrdered(s: Sys, e: SysEvent)
    requires PagesOrdered(s) && (e.PageResumes? || e.PageThrows? || e.PageLocal?)
    ensures PagesOrdered(SysNext(s, e))
  {
    var v, n := e.viewer, SysNext(s, e);
    OwnEventPages(s, e);
    if v < |s.viewers| {
      var p, down := s.viewers[v].page, Stream(s.hub, ViewerConn(v));
      if n.viewers[v].page != p {
        OtherEventInOrder(p, Own(e), down, s.run.relayed);
      }
      OnePageOrdered(s, n, v);
    }
  }

  lemma ViewerConnectsOrdered(s: Sys, key: Option<string>)
    requires Inv(s) && PagesOrdered(s)
    ensures PagesOrdered(SysNext(s, ViewerConnects(key)))
  {
    ViewerConnectsSamePages(s, key);
    SamePagesOrdered(s, SysNext(s, ViewerConnects(key)));
  }

  lemma HubReadsHostStepOrdered(s: Sys)
    requires Inv(s) && PagesOrdered(s)
    ensures PagesOrdered(SysNext(s, HubReadsHost))
  {
    if HostReading(s) && s.hostOut != [] {
      HubReadsHostOrdered(s);
    }
  }

  lemma PageReadsStepOrdered(s: Sys, v: nat, fp: Option<string>, readable: bool)
    requires PagesOrdered(s)
    ensures PagesOrdered(SysNext(s, PageReads(v, fp, readable)))
  {
    if v < |s.viewers| && Stream(s.hub, ViewerConn(v)) != [] {
      PageReadsOrdered(s, v, fp, readable);
    }
  }

  lemma QuietEventOrdered(s: Sys, e: SysEvent)
    requires Inv(s) && Ordered(s) && !e.HostRestarts? && !e.ViewerConnects? && !e.HubReadsHost?
    requires !e.PageReads? && !e.PageResumes? && !e.PageThrows? && !e.PageLocal?
    ensures PagesOrdered(SysNext(s, e))
  {
    if e.HostLeaves? || e.OldHostLeaves? || e.ViewerLeaves? {
      LeavingSamePages(s, e);
    } else if e.HubReadsLate? || e.HubReadsViewer? {
      FirstLate(s.late, 0);
      RelaySamePages(s, e);
    } else {
      HostEventsSamePages(s, e);
    }
    SamePagesOrdered(s, SysNext(s, e));
  }

  lemma PagesStayOrdered(s: Sys, e: SysEvent)
    requires Inv(s) && Ordered(s) && !e.HostRestarts?
    ensures PagesOrdered(SysNext(s, e))
  {
    match e
    case ViewerConnects(key) => ViewerConnectsOrdered(s, key);
    case HubReadsHost => HubReadsHostStepOrdered(s);
    case PageReads(v, fp, readable) => PageReadsStepOrdered(s, v, fp, readable);
    case PageResumes(_, _, _) => OwnEventOrdered(s, e);
    case PageThrows(_, _) => OwnEventOrdered(s, e);
    case PageLocal(_, _) => OwnEventOrdered(s, e);
    case _ => QuietEventOrdered(s, e);
  }

  lemma OrderedStep(s: Sys, e: SysEvent)
    requires Inv(s) && InRange(s) && Ordered(s) && !e.HostRestarts?
    ensures Ordered(SysNext(s, e))
  {
    HostStaysOrdered(s, e);
    PagesStayOrdered(s, e);
    SameRun(s, e);
  }

  lemma SameRun(s: Sys, e: SysEvent)
    requires !e.HostRestarts?
    ensures SysNext(s, e).run.number == s.run.number
  {
  }
}
