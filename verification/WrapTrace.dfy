// Why the theorems about the whole system speak of session numbers below 2^32:
// an answer that stays on its way while 2^32 further viewers come is accepted
// for the session that has its number again.
module WrapTrace {
  import opened Wrappers
  import opened Devices
  import H = SessionHost
  import opened Hub
  import opened System
  import opened SystemProofs
  import RestartTrace

  // The n-th viewer has the slot and the host its session, while the first
  // viewer's answer to session 1 is still on its link to the hub.
  ghost predicate AfterSessions(s: Sys, n: nat) {
    && n >= 1 && s.run.number == 0 && s.registered && s.hub.broken == {}
    && s.hub.host == Some(HostConn(0)) && s.hub.viewer == Some(ViewerConn(n - 1))
    && Stream(s.hub, HostConn(0)) == []
    && |s.viewers| == n && s.viewers[0].reading && s.viewers[0].up == [AnswerBody(1, "answer", 0, 0)]
    && s.host.session == n % H.SESSIONS && s.host.doing.Idle? && s.host.current.Some?
  }

  const READ := HostReads(None, true, 0)
  const DONE := HostSteps(H.Resume(true), "offer")

  // One more viewer connects, and the host starts a session for it.
  lemma OneMoreSession(s: Sys, n: nat) returns (t: Sys, es: seq<SysEvent>)
    requires AfterSessions(s, n)
    ensures t == SysRun(s, es) && OneHostRun(es) && AfterSessions(t, n + 1)
  {
    var told := HostIsTold(s, n);
    t := HostStarts(told, s, n);
    es := [ViewerConnects(None), READ] + [DONE, DONE];
    RestartTrace.RunAppend(s, [ViewerConnects(None), READ], [DONE, DONE]);
  }

  // The host has been told of viewer n, and has nothing else to read.
  ghost predicate Told(s: Sys, before: Sys, n: nat)
    requires before.viewers != []
  {
    && s.run.number == 0 && s.registered && s.hub.broken == {}
    && s.hub.host == Some(HostConn(0)) && s.hub.viewer == Some(ViewerConn(n))
    && Stream(s.hub, HostConn(0)) == []
    && |s.viewers| == n + 1 && s.viewers[0] == before.viewers[0]
  }

  lemma HostIsTold(s: Sys, n: nat) returns (t: Sys)
    requires AfterSessions(s, n)
    ensures t == SysRun(s, [ViewerConnects(None), READ]) && Told(t, s, n)
    ensures t.host.session == s.host.session && t.host.doing.ClosingOld?
  {
    var joined := SysNext(s, ViewerConnects(None));
    assert Stream(joined.hub, HostConn(0)) == [JoinedFrame];
    t := SysNext(joined, READ);
    RestartTrace.TwoEvents(s, ViewerConnects(None), READ);
  }

  lemma OldIsClosed(s: Sys, before: Sys, n: nat) returns (t: Sys)
    requires before.viewers != [] && Told(s, before, n) && s.host.doing.ClosingOld?
    ensures t == SysNext(s, DONE) && Told(t, before, n)
    ensures t.host.session == (s.host.session + 1) % H.SESSIONS && t.host.doing.Starting?
  {
    t := SysNext(s, DONE);
  }

  lemma SessionStarts(s: Sys, before: Sys, n: nat) returns (t: Sys)
    requires AfterSessions(before, n) && Told(s, before, n)
    requires s.host.doing.Starting? && s.host.session == (n + 1) % H.SESSIONS
    ensures t == SysNext(s, DONE) && AfterSessions(t, n + 1)
  {
    t := SysNext(s, DONE);
  }

  lemma HostStarts(s: Sys, before: Sys, n: nat) returns (t: Sys)
    requires AfterSessions(before, n) && Told(s, before, n)
    requires s.host.session == before.host.session && s.host.doing.ClosingOld?
    ensures t == SysRun(s, [DONE, DONE]) && AfterSessions(t, n + 1)
  {
    var starting := OldIsClosed(s, before, n);
    t := SessionStarts(starting, before, n);
    RestartTrace.TwoEvents(s, DONE, DONE);
  }

  lemma {:induction false} ManySessions(s: Sys, n: nat, m: nat) returns (t: Sys, es: seq<SysEvent>)
    requires AfterSessions(s, n) && n <= m
    ensures t == SysRun(s, es) && OneHostRun(es) && AfterSessions(t, m)
    decreases m - n
  {
    if n == m {
      t, es := s, [];
    } else {
      var next, first := OneMoreSession(s, n);
      var rest;
      t, rest := ManySessions(next, n + 1, m);
      es := first + rest;
      RestartTrace.RunAppend(s, first, rest);
    }
  }

  // In one host run, after 2^32 + 1 sessions, the host is in its session 1
  // again and about to accept the first viewer's answer to its first session 1,
  // although another viewer has the slot and was announced for this one.
  lemma WrappedAnswerIsAccepted(paired: seq<PairedDevice>, key: string) returns (n: Sys, events: seq<SysEvent>)
    ensures n == SysRun(Start(paired), events) && OneHostRun(events)
    ensures AboutToAccept(n) && n.host.current.Some?
    ensures ToHost(n)[0].body == AnswerBody(1, "answer", 0, 0) && n.hub.viewer == Some(ViewerConn(H.SESSIONS))
  {
    var s, first := RestartTrace.FirstRun(paired, key);
    assert AfterSessions(s, 1);
    var t, rest := ManySessions(s, 1, H.SESSIONS + 1);
    n := AnswerComes(t, H.SESSIONS + 1);
    RestartTrace.OneEvent(t, HubReadsViewer(0));
    RestartTrace.RunAppend(Start(paired), first, rest);
    RestartTrace.RunAppend(Start(paired), first + rest, [HubReadsViewer(0)]);
    events := first + rest + [HubReadsViewer(0)];
  }

  lemma AnswerComes(s: Sys, n: nat) returns (t: Sys)
    requires AfterSessions(s, n) && n % H.SESSIONS == 1
    ensures t == SysNext(s, HubReadsViewer(0)) && AboutToAccept(t)
    ensures ToHost(t)[0].body == AnswerBody(1, "answer", 0, 0)
    ensures t.host == s.host && t.hub.viewer == s.hub.viewer
  {
    t := SysNext(s, HubReadsViewer(0));
    assert ToHost(t) == [RelayedFrame(AnswerBody(1, "answer", 0, 0))];
  }
}
