// Why the theorems about the whole system speak of one host run: session
// numbers start again at 1 in the next run. Each lemma extends a run and
// returns the events it takes.
module RestartTrace {
  import opened Wrappers
  import opened Devices
  import H = SessionHost
  import opened Hub
  import opened Page
  import opened System
  import opened SystemProofs

  lemma OneEvent(s: Sys, e: SysEvent)
    ensures SysRun(s, [e]) == SysNext(s, e)
  {
    assert [e][1..] == [];
  }

  lemma {:induction false} RunAppend(s: Sys, a: seq<SysEvent>, b: seq<SysEvent>)
    ensures SysRun(s, a + b) == SysRun(SysRun(s, a), b)
    decreases |a|
  {
    if a == [] {
      assert a + b == b;
    } else {
      assert (a + b)[0] == a[0] && (a + b)[1..] == a[1..] + b;
      RunAppend(SysNext(s, a[0]), a[1..], b);
    }
  }

  lemma TwoEvents(s: Sys, a: SysEvent, b: SysEvent)
    ensures SysRun(s, [a, b]) == SysNext(SysNext(s, a), b)
  {
    OneEvent(s, a);
    OneEvent(SysNext(s, a), b);
    RunAppend(s, [a], [b]);
    assert [a] + [b] == [a, b];
  }

  // The hub with host run `run` and viewer 0 connected, and what is on the
  // links to them.
  ghost predicate Linked(s: Sys, run: nat, toHost: seq<Frame>, toPage: seq<Frame>) {
    && s.run.number == run && s.registered && s.hub.broken == {}
    && s.hub.host == Some(HostConn(run)) && s.hub.viewer == Some(ViewerConn(0))
    && Stream(s.hub, HostConn(run)) == toHost && Stream(s.hub, ViewerConn(0)) == toPage
    && (forall r :: r > run ==> Stream(s.hub, HostConn(r)) == [])
    && |s.viewers| == 1 && s.viewers[0].reading
  }

  ghost predicate InSession(s: Sys, n: nat, doing: H.Activity) {
    s.host.session == n && s.host.doing == doing
  }

  // A host that has just connected reads viewer-joined and offers session 1.
  lemma HostOffers(s: Sys, toPage: seq<Frame>, sdp: string) returns (n: Sys, es: seq<SysEvent>)
    requires Linked(s, s.run.number, [ConfigFrame, JoinedFrame], toPage)
    requires InSession(s, 0, H.AwaitingConfig) && s.host.current.None? && s.hostOut == []
    ensures n == SysRun(s, es) && OneHostRun(es)
    ensures Linked(n, s.run.number, [], toPage) && n.viewers == s.viewers
    ensures InSession(n, 1, H.Idle) && n.host.current.Some? && n.hostOut == [OfferBody(1, sdp, s.run.number)]
  {
    var joined := HostReadsJoined(s, toPage);
    n := SessionStarts(joined, toPage, sdp);
    var taken, last := [HostReads(None, true, 0), HostReads(None, true, 0)], [HostSteps(H.Resume(true), sdp)];
    es := taken + last;
    OneEvent(joined, HostSteps(H.Resume(true), sdp));
    RunAppend(s, taken, last);
  }

  lemma SessionStarts(s: Sys, toPage: seq<Frame>, sdp: string) returns (n: Sys)
    requires Linked(s, s.run.number, [], toPage) && InSession(s, 1, H.Starting) && s.hostOut == []
    ensures n == SysNext(s, HostSteps(H.Resume(true), sdp))
    ensures Linked(n, s.run.number, [], toPage) && n.viewers == s.viewers && n.run.number == s.run.number
    ensures InSession(n, 1, H.Idle) && n.host.current.Some? && n.hostOut == [OfferBody(1, sdp, s.run.number)]
  {
    n := SysNext(s, HostSteps(H.Resume(true), sdp));
  }

  lemma HostReadsJoined(s: Sys, toPage: seq<Frame>) returns (n: Sys)
    requires Linked(s, s.run.number, [ConfigFrame, JoinedFrame], toPage)
    requires InSession(s, 0, H.AwaitingConfig) && s.host.current.None? && s.hostOut == []
    ensures n == SysRun(s, [HostReads(None, true, 0), HostReads(None, true, 0)])
    ensures Linked(n, s.run.number, [], toPage) && InSession(n, 1, H.Starting)
    ensures n.viewers == s.viewers && n.hostOut == []
  {
    var idle := SysNext(s, HostReads(None, true, 0));
    assert Linked(idle, s.run.number, [JoinedFrame], toPage);
    assert InSession(idle, 0, H.Idle) && idle.host.current.None?;
    n := SysNext(idle, HostReads(None, true, 0));
    TwoEvents(s, HostReads(None, true, 0), HostReads(None, true, 0));
  }

  // The page's one handler run is suspended in `h`.
  ghost predicate Running(s: Sys, h: Handler) {
    && Linked(s, 0, [], []) && s.viewers[0].up == []
    && s.viewers[0].page.pc == Some(0) && s.viewers[0].page.handlers == map[0 := h]
  }

  lemma OfferReachesPage(s: Sys, key: string) returns (n: Sys, es: seq<SysEvent>)
    requires Linked(s, 0, [], [ConfigFrame]) && s.hostOut == [OfferBody(1, "offer", 0)]
    requires s.viewers == [Viewer(Opened(None), [], true)]
    ensures n == SysRun(s, es) && OneHostRun(es)
    ensures Running(n, Handler(1, 0, key, SettingRemote)) && n.host == s.host
  {
    var relayed := SysNext(s, HubReadsHost);
    assert Linked(relayed, 0, [], [ConfigFrame, RelayedFrame(OfferBody(1, "offer", 0))]);
    assert relayed.viewers == s.viewers;
    var ready := SysNext(relayed, PageReads(0, None, true));
    TwoEvents(s, HubReadsHost, PageReads(0, None, true));
    n := PageTakesOffer(ready, key);
    es := [HubReadsHost, PageReads(0, None, true)] + [PageReads(0, Some(key), true)];
    OneEvent(ready, PageReads(0, Some(key), true));
    RunAppend(s, [HubReadsHost, PageReads(0, None, true)], [PageReads(0, Some(key), true)]);
  }

  lemma PageTakesOffer(s: Sys, key: string) returns (n: Sys)
    requires Linked(s, 0, [], [RelayedFrame(OfferBody(1, "offer", 0))])
    requires s.viewers == [Viewer(Opened(None).(ready := true), [], true)]
    ensures n == SysNext(s, PageReads(0, Some(key), true)) && Running(n, Handler(1, 0, key, SettingRemote))
    ensures n.host == s.host
  {
    n := SysNext(s, PageReads(0, Some(key), true));
  }

  lemma PageAnswers(s: Sys, h: Handler) returns (n: Sys, es: seq<SysEvent>)
    requires Running(s, h) && h.stage == SettingRemote
    ensures n == SysRun(s, es) && OneHostRun(es) && n.host == s.host
    ensures Linked(n, 0, [], []) && n.viewers[0].up == [AnswerBody(h.session, "answer", h.run, 0)]
  {
    var step := PageResumes(0, 0, "answer");
    var created := SysNext(s, step);
    assert Running(created, h.(stage := CreatingAnswer));
    var local := SysNext(created, step);
    assert Running(local, h.(stage := SettingLocal));
    TwoEvents(s, step, step);
    n := PageSends(local, h.(stage := SettingLocal));
    es := [step, step] + [step, step];
    RunAppend(s, [step, step], [step, step]);
  }

  lemma PageSends(s: Sys, h: Handler) returns (n: Sys)
    requires Running(s, h) && h.stage == SettingLocal
    ensures n == SysRun(s, [PageResumes(0, 0, "answer"), PageResumes(0, 0, "answer")]) && n.host == s.host
    ensures Linked(n, 0, [], []) && n.viewers[0].up == [AnswerBody(h.session, "answer", h.run, 0)]
  {
    var gathering := SysNext(s, PageResumes(0, 0, "answer"));
    assert Running(gathering, h.(stage := Gathering));
    n := SysNext(gathering, PageResumes(0, 0, "answer"));
    TwoEvents(s, PageResumes(0, 0, "answer"), PageResumes(0, 0, "answer"));
  }

  // The first run up to the viewer's answer to its offer 1.
  lemma FirstRun(paired: seq<PairedDevice>, key: string) returns (n: Sys, events: seq<SysEvent>)
    ensures n == SysRun(Start(paired), events) && OneHostRun(events)
    ensures Linked(n, 0, [], []) && n.viewers[0].up == [AnswerBody(1, "answer", 0, 0)]
    ensures InSession(n, 1, H.Idle) && n.host.current.Some?
  {
    var linked := BothConnect(paired);
    var offered, es1 := HostOffers(linked, [ConfigFrame], "offer");
    var running, es2 := OfferReachesPage(offered, key);
    var es3;
    n, es3 := PageAnswers(running, Handler(1, 0, key, SettingRemote));
    var es0 := [HostConnects, ViewerConnects(None)];
    RunAppend(Start(paired), es0, es1);
    RunAppend(Start(paired), es0 + es1, es2);
    RunAppend(Start(paired), es0 + es1 + es2, es3);
    events := es0 + es1 + es2 + es3;
  }

  lemma BothConnect(paired: seq<PairedDevice>) returns (n: Sys)
    ensures n == SysRun(Start(paired), [HostConnects, ViewerConnects(None)])
    ensures Linked(n, 0, [ConfigFrame, JoinedFrame], [ConfigFrame]) && n.host == H.Fresh(paired) && n.hostOut == []
    ensures n.viewers == [Viewer(Opened(None), [], true)]
  {
    n := SysNext(SysNext(Start(paired), HostConnects), ViewerConnects(None));
    TwoEvents(Start(paired), HostConnects, ViewerConnects(None));
    assert Stream(n.hub, HostConn(0)) == [ConfigFrame, JoinedFrame];
  }

  // After a restart the new host is in its own session 1 when that answer
  // reaches it, and accepts it as if it were made from its new offer.
  lemma StaleAnswerIsAccepted(paired: seq<PairedDevice>, key: string) returns (n: Sys, events: seq<SysEvent>)
    ensures n == SysRun(Start(paired), events)
    ensures AboutToAccept(n) && n.host.session == 1 && n.host.current.Some?
    ensures n.run.number == 1 && ToHost(n)[0].body.run == 0
  {
    var s, es1 := FirstRun(paired, key);
    var restarted := HostComesBack(s, paired);
    var offered, es2 := HostOffers(restarted, [], "new offer");
    n := SysNext(offered, HubReadsViewer(0));
    assert Stream(n.hub, HostConn(1)) == [RelayedFrame(AnswerBody(1, "answer", 0, 0))];
    var back, last := [HostRestarts(paired), HostConnects], [HubReadsViewer(0)];
    OneEvent(offered, HubReadsViewer(0));
    RunAppend(Start(paired), es1, back);
    RunAppend(Start(paired), es1 + back, es2);
    RunAppend(Start(paired), es1 + back + es2, last);
    events := es1 + back + es2 + last;
  }

  lemma HostComesBack(s: Sys, paired: seq<PairedDevice>) returns (n: Sys)
    requires Linked(s, 0, [], [])
    ensures n == SysRun(s, [HostRestarts(paired), HostConnects])
    ensures Linked(n, 1, [ConfigFrame, JoinedFrame], [])
    ensures n.host == H.Fresh(paired) && n.hostOut == [] && n.viewers == s.viewers
  {
    n := SysNext(SysNext(s, HostRestarts(paired)), HostConnects);
    TwoEvents(s, HostRestarts(paired), HostConnects);
    assert Stream(n.hub, HostConn(1)) == [ConfigFrame, JoinedFrame];
  }
}
