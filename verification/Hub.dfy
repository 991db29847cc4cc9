// The signaling hub (signaling/main.go): one slot per role, every write under
// one lock.
module Hub {
  import opened Wrappers

  datatype Role = HostRole | ViewerRole

  // A WebSocket connection, with the role its URL gave.
  datatype Conn = Conn(role: Role, number: nat)

  // What the two sides send through the hub, which never looks inside.
  // `run`, `viewer` and an answer's `run` are not on the wire: they record
  // which host run made the offer and which viewer connection answered it.
  datatype Body =
    | OfferBody(session: nat, sdp: string, run: nat)
    | AnswerBody(session: nat, sdp: string, run: nat, viewer: nat)

  datatype Frame = ConfigFrame | JoinedFrame | RelayedFrame(body: Body)

  // `out` is what has been written to each connection and not yet read.
  // Writes to a broken connection fail from then on.
  datatype HubState = HubState(host: Option<Conn>, viewer: Option<Conn>, out: map<Conn, seq<Frame>>, broken: set<Conn>)

  const NOBODY := HubState(None, None, map[], {})

  function Stream(s: HubState, c: Conn): seq<Frame> { if c in s.out then s.out[c] else [] }

  // WriteMessage; its error is logged and otherwise ignored.
  function Write(s: HubState, c: Conn, f: Frame): (r: HubState)
    ensures r.host == s.host && r.viewer == s.viewer && r.broken == s.broken
    ensures forall d :: Stream(r, d) == if d == c && c !in s.broken then Stream(s, d) + [f] else Stream(s, d)
  {
    if c in s.broken then s else s.(out := s.out[c := Stream(s, c) + [f]])
  }

  function Registered(s: HubState, c: Conn): HubState {
    var s1 := Write(s, c, ConfigFrame);
    var s2 := if c.role == HostRole then s1.(host := Some(c)) else s1.(viewer := Some(c));
    if s2.host.Some? && s2.viewer.Some? then Write(s2, s2.host.value, JoinedFrame) else s2
  }

  function Unregistered(s: HubState, c: Conn): (r: HubState)
    ensures r.broken == s.broken && forall d :: Stream(r, d) == Stream(s, d)
  {
    if c.role == HostRole && s.host == Some(c) then s.(host := None)
    else if c.role == ViewerRole && s.viewer == Some(c) then s.(viewer := None)
    else s
  }

  function Relayed(s: HubState, role: Role, body: Body): HubState {
    var peer := if role == ViewerRole then s.host else s.viewer;
    if peer.None? then s else Write(s, peer.value, RelayedFrame(body))
  }

  datatype HubEvent =
    | Register(conn: Conn)
    | Unregister(conn: Conn)
    | Relay(role: Role, body: Body)
    | Break(conn: Conn)

  function HubNext(s: HubState, e: HubEvent): HubState {
    match e
    case Register(c) => Registered(s, c)
    case Unregister(c) => Unregistered(s, c)
    case Relay(role, body) => Relayed(s, role, body)
    case Break(c) => s.(broken := s.broken + {c})
  }

  // The hub after the first `n` events.
  function After(events: seq<HubEvent>, n: nat): HubState
    requires n <= |events|
  {
    if n == 0 then NOBODY else HubNext(After(events, n - 1), events[n - 1])
  }

  class Hub {
    var host: Option<Conn>
    var viewer: Option<Conn>
    var out: map<Conn, seq<Frame>>
    var broken: set<Conn>

    ghost function State(): HubState
      reads this
    {
      HubState(host, viewer, out, broken)
    }

    constructor ()
      ensures State() == NOBODY
    {
      host, viewer, out, broken := None, None, map[], {};
    }

    method WriteMessage(c: Conn, f: Frame) returns (ok: bool)
      modifies this`out
      ensures State() == Write(old(State()), c, f)
      ensures ok <==> c !in broken
    {
      if c in broken {
        return false;
      }
      out := out[c := (if c in out then out[c] else []) + [f]];
      return true;
    }

    method RegisterConn(c: Conn)
      modifies this
      ensures State() == Registered(old(State()), c)
    {
      var _ := WriteMessage(c, ConfigFrame);
      if c.role == HostRole {
        host := Some(c);
      } else {
        viewer := Some(c);
      }
      if host.Some? && viewer.Some? {
        var _ := WriteMessage(host.value, JoinedFrame);
      }
    }

    method UnregisterConn(c: Conn)
      modifies this
      ensures State() == Unregistered(old(State()), c)
    {
      if c.role == HostRole && host == Some(c) {
        host := None;
      }
      if c.role == ViewerRole && viewer == Some(c) {
        viewer := None;
      }
    }

    method RelayMessage(role: Role, body: Body)
      modifies this
      ensures State() == Relayed(old(State()), role, body)
    {
      var peer := viewer;
      if role == ViewerRole {
        peer := host;
      }
      if peer.None? {
        return;
      }
      var _ := WriteMessage(peer.value, RelayedFrame(body));
    }
  }

  // The frames an event writes to a connection.
  function Written(s: HubState, e: HubEvent, c: Conn): seq<Frame> {
    match e
    case Register(d) =>
      var after := Registered(s, d);
      (if c == d then [ConfigFrame] else [])
      + (if after.host == Some(c) && after.viewer.Some? then [JoinedFrame] else [])
    case Relay(role, body) =>
      if (if role == ViewerRole then s.host else s.viewer) == Some(c) then [RelayedFrame(body)] else []
    case _ => []
  }

  lemma StreamGrows(s: HubState, e: HubEvent, c: Conn)
    requires c !in HubNext(s, e).broken
    ensures c !in s.broken && Stream(HubNext(s, e), c) == Stream(s, c) + Written(s, e, c)
  {
  }

  // -------------------------------------------------------------- no lost wakeup

  // The host was told, by the last frame of `after`, and `stream` goes on from
  // there.
  predicate Told(before: seq<Frame>, after: seq<Frame>, stream: seq<Frame>) {
    |before| < |after| && after[|after| - 1] == JoinedFrame && after <= stream
  }

  ghost predicate NeitherSince(events: seq<HubEvent>, i: nat, n: nat, host: Conn, viewer: Conn)
    requires n <= |events|
  {
    forall j :: i < j < n ==> events[j] != Register(host) && events[j] != Register(viewer)
  }

  // Among the first `n` events, event `i` registered one of `host` and
  // `viewer` and, with both in their slots, told the host, whose stream has
  // since grown to `stream`; neither has registered again.
  ghost predicate WokenAt(events: seq<HubEvent>, n: nat, i: nat, host: Conn, viewer: Conn, stream: seq<Frame>)
    requires i < n <= |events|
  {
    && (events[i] == Register(host) || events[i] == Register(viewer))
    && After(events, i + 1).host == Some(host) && After(events, i + 1).viewer == Some(viewer)
    && Told(Stream(After(events, i), host), Stream(After(events, i + 1), host), stream)
    && NeitherSince(events, i, n, host, viewer)
  }

  // A registration that leaves both in their slots tells the host at once.
  lemma WokenNow(events: seq<HubEvent>, n: nat, host: Conn, viewer: Conn)
    requires 0 < n <= |events| && host !in After(events, n).broken && events[n - 1].Register?
    requires After(events, n).host == Some(host) && After(events, n).viewer == Some(viewer)
    ensures WokenAt(events, n, n - 1, host, viewer, Stream(After(events, n), host))
  {
    var s, e := After(events, n - 1), events[n - 1];
    var sent := Written(s, e, host);
    StreamGrows(s, e, host);
    assert sent[|sent| - 1] == JoinedFrame;
  }

  // Whenever both sides are present the host has been told about this very
  // pair, in whatever order the two connected and the ones they displaced
  // went away.
  lemma {:induction false} NoLostWakeup(events: seq<HubEvent>, n: nat, host: Conn, viewer: Conn) returns (i: nat)
    requires n <= |events| && host !in After(events, n).broken
    requires After(events, n).host == Some(host) && After(events, n).viewer == Some(viewer)
    ensures i < n && WokenAt(events, n, i, host, viewer, Stream(After(events, n), host))
  {
    if n == 0 {
      assert false;
    } else if events[n - 1].Register? {
      i := n - 1;
      WokenNow(events, n, host, viewer);
    } else {
      BothThereBefore(After(events, n - 1), events[n - 1], host, viewer);
      i := NoLostWakeup(events, n - 1, host, viewer);
      WokenLater(events, n, i, host, viewer);
    }
  }

  // Only a registration fills a slot.
  lemma BothThereBefore(s: HubState, e: HubEvent, host: Conn, viewer: Conn)
    requires !e.Register? && HubNext(s, e).host == Some(host) && HubNext(s, e).viewer == Some(viewer)
    requires host !in HubNext(s, e).broken
    ensures s.host == Some(host) && s.viewer == Some(viewer) && host !in s.broken
  {
  }

  lemma WokenLater(events: seq<HubEvent>, n: nat, i: nat, host: Conn, viewer: Conn)
    requires i + 1 < n <= |events| && !events[n - 1].Register? && host !in After(events, n).broken
    requires WokenAt(events, n - 1, i, host, viewer, Stream(After(events, n - 1), host))
    ensures WokenAt(events, n, i, host, viewer, Stream(After(events, n), host))
  {
    var s, e := After(events, n - 1), events[n - 1];
    StreamGrows(s, e, host);
    WokenStill(events, n, i, host, viewer, Stream(s, host), Written(s, e, host));
  }

  lemma ToldStill(before: seq<Frame>, after: seq<Frame>, stream: seq<Frame>, more: seq<Frame>)
    requires Told(before, after, stream)
    ensures Told(before, after, stream + more)
  {
  }

  lemma NeitherYet(events: seq<HubEvent>, i: nat, n: nat, host: Conn, viewer: Conn)
    requires 0 < n <= |events| && NeitherSince(events, i, n - 1, host, viewer) && !events[n - 1].Register?
    ensures NeitherSince(events, i, n, host, viewer)
  {
  }

  lemma WokenStill(events: seq<HubEvent>, n: nat, i: nat, host: Conn, viewer: Conn,
                   stream: seq<Frame>, more: seq<Frame>)
    requires i + 1 < n <= |events| && !events[n - 1].Register?
    requires WokenAt(events, n - 1, i, host, viewer, stream)
    ensures WokenAt(events, n, i, host, viewer, stream + more)
  {
    ToldStill(Stream(After(events, i), host), Stream(After(events, i + 1), host), stream, more);
    NeitherYet(events, i, n, host, viewer);
  }

  function Joins(stream: seq<Frame>): nat {
    if stream == [] then 0
    else Joins(stream[..|stream| - 1]) + if stream[|stream| - 1] == JoinedFrame then 1 else 0
  }

  lemma JoinsAppend(stream: seq<Frame>, f: Frame)
    ensures Joins(stream + [f]) == Joins(stream) + if f == JoinedFrame then 1 else 0
  {
    assert (stream + [f])[..|stream|] == stream;
  }

  // How many of the first `n` events registered a connection and left both
  // slots filled, with `c` as the host.
  function Pairings(events: seq<HubEvent>, n: nat, c: Conn): nat
    requires n <= |events|
  {
    if n == 0 then 0
    else
      var s := After(events, n);
      Pairings(events, n - 1, c)
      + if events[n - 1].Register? && s.host == Some(c) && s.viewer.Some? then 1 else 0
  }

  // What one event adds is viewer-joined at most once, and exactly when it is
  // such a registration.
  lemma WrittenJoins(s: HubState, e: HubEvent, c: Conn)
    ensures
      var n := HubNext(s, e);
      Joins(Written(s, e, c)) == if e.Register? && n.host == Some(c) && n.viewer.Some? then 1 else 0
  {
    JoinsOfOne(ConfigFrame);
    JoinsOfOne(JoinedFrame);
    JoinsAppend([ConfigFrame], JoinedFrame);
    if e.Relay? {
      JoinsOfOne(RelayedFrame(e.body));
    }
  }

  lemma JoinsOfOne(f: Frame)
    ensures Joins([]) == 0 && Joins([f]) == if f == JoinedFrame then 1 else 0
  {
    JoinsAppend([], f);
    assert [] + [f] == [f];
  }

  // The host is told exactly once for each registration that leaves both
  // sides present.
  lemma {:induction false} OneWakeupPerPairing(events: seq<HubEvent>, n: nat, c: Conn)
    requires n <= |events| && c !in After(events, n).broken
    ensures Joins(Stream(After(events, n), c)) == Pairings(events, n, c)
  {
    if n == 0 {
    } else {
      var s, e := After(events, n - 1), events[n - 1];
      StreamGrows(s, e, c);
      OneWakeupPerPairing(events, n - 1, c);
      JoinsConcat(Stream(s, c), Written(s, e, c));
      WrittenJoins(s, e, c);
    }
  }

  lemma {:induction false} JoinsConcat(stream: seq<Frame>, more: seq<Frame>)
    ensures Joins(stream + more) == Joins(stream) + Joins(more)
    decreases |more|
  {
    if more == [] {
      assert stream + more == stream;
    } else {
      var front, last := more[..|more| - 1], more[|more| - 1];
      JoinsConcat(stream, front);
      JoinsAppend(stream + front, last);
      assert stream + more == stream + front + [last];
    }
  }

  ghost predicate RegistersOnce(events: seq<HubEvent>) {
    forall i, j :: 0 <= i < j < |events| && events[i].Register? ==> events[i] != events[j]
  }

  ghost predicate HasRegistered(events: seq<HubEvent>, n: nat, c: Conn)
    requires n <= |events|
  {
    exists i :: 0 <= i < n && events[i] == Register(c)
  }

  ghost predicate ConfigFirst(stream: seq<Frame>) {
    && stream != [] && stream[0] == ConfigFrame
    && forall k :: 0 < k < |stream| ==> stream[k] != ConfigFrame
  }

  // Every connection's stream starts with the config message and holds no
  // other, so no offer can come before it.
  lemma {:induction false} ConfigComesFirst(events: seq<HubEvent>, n: nat, c: Conn)
    requires RegistersOnce(events) && n <= |events| && c !in After(events, n).broken
    ensures HasRegistered(events, n, c) ==> ConfigFirst(Stream(After(events, n), c))
    ensures !HasRegistered(events, n, c) ==>
      Stream(After(events, n), c) == [] && After(events, n).host != Some(c) && After(events, n).viewer != Some(c)
  {
    if n == 0 {
    } else {
      StreamGrows(After(events, n - 1), events[n - 1], c);
      ConfigComesFirst(events, n - 1, c);
      ConfigStaysFirst(After(events, n - 1), events[n - 1], c, HasRegistered(events, n - 1, c));
      RegisteredOnceMore(events, n, c);
    }
  }

  lemma RegisteredOnceMore(events: seq<HubEvent>, n: nat, c: Conn)
    requires 0 < n <= |events|
    ensures HasRegistered(events, n, c) <==> HasRegistered(events, n - 1, c) || events[n - 1] == Register(c)
  {
  }

  lemma ConfigStaysFirst(s: HubState, e: HubEvent, c: Conn, registered: bool)
    requires c !in HubNext(s, e).broken
    requires registered ==> ConfigFirst(Stream(s, c)) && e != Register(c)
    requires !registered ==> Stream(s, c) == [] && s.host != Some(c) && s.viewer != Some(c)
    ensures
      var n := HubNext(s, e);
      if registered || e == Register(c) then ConfigFirst(Stream(n, c))
      else Stream(n, c) == [] && n.host != Some(c) && n.viewer != Some(c)
  {
    StreamGrows(s, e, c);
  }
}
