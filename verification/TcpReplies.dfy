/** What becomes of every request of a session: how it is asked, when it is answered, and that the answer arrives. */
module TcpReplies {
  import opened Common
  import opened TcpApplication

  lemma RunStep(requests: int, states: seq<Net>, events: seq<Event>, i: nat)
    requires IsRun(requests, states, events) && i < |events|
    ensures |states| == |events| + 1 && SessionInv(states[i], requests)
    ensures Enabled(states[i], events[i]) && Apply(states[i], events[i]) == Ok(states[i + 1], [])
  {
    hide SessionInv, Apply, Enabled;
    RunKeeps(requests, states[..i + 1], events[..i]);
  }

  /* ---------- requests ---------- */

  /** The client sends a request: the first when the connection opens, others when its timer fires. */
  predicate Sends(n: Net, e: Event) {
    e.ConnectionOpens? || (e.ClientTimerFires? && n.c.phase == Running)
  }

  lemma RequestDrawn(n: Net, e: Event, n': Net)
    requires Enabled(n, e) && Apply(n, e) == Ok(n', [])
    ensures if Sends(n, e) then |n'.log| == |n.log| + 1 && n'.log[..|n.log|] == n.log
                                && n'.log[|n.log|].replyLength == e.replyLength && n'.log[|n.log|].delay == e.delay
            else n'.log == n.log
  {
    if Sends(n, e) {
      OneRequest(Msg(e.replyLength, e.delay, n.c.sent + 1, n'.c.phase == Disconnected));
    } else {
      OneRequest(Msg(0, 0, 0, false));
    }
    hide Requests;
  }

  /** Every request asks for what was drawn for it, and nothing else changes the requests sent. */
  lemma RequestsAsDrawn(requests: int, states: seq<Net>, events: seq<Event>, i: nat)
    requires IsRun(requests, states, events) && i < |events|
    ensures var log, log', e := states[i].log, states[i + 1].log, events[i];
      if Sends(states[i], e) then
        exists m :: log' == log + [m] && m.replyLength == e.replyLength && m.delay == e.delay && m.number == |log| + 1
      else log' == log
  {
    RunStep(requests, states, events, i);
    RequestDrawn(states[i], events[i], states[i + 1]);
    var log, log' := states[i].log, states[i + 1].log;
    if Sends(states[i], events[i]) {
      RunKeeps(requests, states[..i + 2], events[..i + 1]);
      assert LogOk(states[i + 1], requests);
      assert log' == log + [log'[|log|]];
    }
  }

  /* ---------- the time of a reply ---------- */

  lemma ReplyTimed(n: Net, requests: int, m: Msg, n': Net)
    requires SessionInv(n, requests) && n.c2s != [] && n.c2s[0] == Data(m) && m.replyLength > 0
    requires Apply(n, ServerReceives) == Ok(n', [])
    ensures Data(m) in n'.s2c <==> m.delay == 0
    ensures n'.s.timer <==> m.delay > 0
  {
    hide LogOk, Answered, Requests;
    assert RequestUnderWay(n);
    hide Inv, SessionInv;
  }

  /** A request is answered at once exactly if it asks for no delay; otherwise the server sets its timer. */
  lemma AnsweredAtOnceExactly(requests: int, states: seq<Net>, events: seq<Event>, i: nat, m: Msg)
    requires IsRun(requests, states, events) && i < |events|
    requires events[i] == ServerReceives && states[i].c2s != [] && states[i].c2s[0] == Data(m) && m.replyLength > 0
    ensures Data(m) in states[i + 1].s2c <==> m.delay == 0
    ensures states[i + 1].s.timer <==> m.delay > 0
  {
    RunStep(requests, states, events, i);
    hide SessionInv, Apply;
    ReplyTimed(states[i], requests, m, states[i + 1]);
  }

  /** A delayed reply is sent only when the server's timer fires. */
  lemma DelayedByTimer(requests: int, states: seq<Net>, events: seq<Event>, i: nat, m: Msg)
    requires IsRun(requests, states, events) && i < |events|
    requires m.delay > 0 && Data(m) in states[i + 1].s2c && Data(m) !in states[i].s2c
    ensures events[i] == ServerTimerFires
  {
    RunStep(requests, states, events, i);
    hide IsRun, SessionInv, Requests;
    OnlyTimer(states[i], events[i], states[i + 1], m);
  }

  lemma OnlyTimer(n: Net, e: Event, n': Net, m: Msg)
    requires Enabled(n, e) && Apply(n, e) == Ok(n', [])
    requires m.delay > 0 && Data(m) in n'.s2c && Data(m) !in n.s2c
    ensures e == ServerTimerFires
  {
    hide Requests;
    match e
    case ServerTimerFires =>
    case ServerReceives =>
    case ServerSocketCloses =>
    case ClientReceives =>
    case ClientTimerFires(_, _) =>
    case ConnectionOpens(_, _) =>
    case ClientSocketCloses =>
  }

  /* ---------- replies ---------- */

  /** Requests on their way, requests whose reply is delayed, and replies on their way. */
  function Unanswered(n: Net): nat {
    |Requests(n.c2s)| + |n.s.replies| + |Requests(n.s2c)|
  }

  /** The server drops a request for an empty reply. */
  predicate Drops(n: Net, e: Event) {
    e.ServerReceives? && n.c2s != [] && n.c2s[0].Data? && n.c2s[0].msg.replyLength == 0
  }

  lemma RequestsFirst(p: Packet, rest: seq<Packet>)
    ensures Requests([p] + rest) == (if p.Data? then [p.msg] else []) + Requests(rest)
  {
    assert ([p] + rest)[1..] == rest;
  }

  lemma {:induction false} RequestsBoth(ps: seq<Packet>, qs: seq<Packet>)
    ensures Requests(ps + qs) == Requests(ps) + Requests(qs)
  {
    if ps == [] {
      assert ps + qs == qs;
    } else {
      var p, rest := ps[0], ps[1..];
      RequestsBoth(rest, qs);
      assert ps == [p] + rest && ps + qs == [p] + (rest + qs);
      RequestsFirst(p, rest);
      RequestsFirst(p, rest + qs);
      hide Requests;
    }
  }

  lemma ClientStep(n: Net, r: Result<Client>, taken: nat, n': Net)
    requires taken <= |n.s2c| && FromClient(n, r, taken) == Ok(n', [])
    ensures n'.c == r.state && n'.s == n.s && n'.s2c == n.s2c[taken..]
    ensures |Requests(n'.c2s)| - |Requests(n.c2s)| == |n'.log| - |n.log|
  {
    RequestsBoth(n.c2s, r.out);
    hide Requests;
  }

  lemma ServerStep(n: Net, r: Result<Server>, taken: nat, n': Net)
    requires taken <= |n.c2s| && FromServer(n, r, taken) == Ok(n', [])
    ensures n'.c == n.c && n'.s == r.state && n'.c2s == n.c2s[taken..] && n'.log == n.log
    ensures |Requests(n'.s2c)| == |Requests(n.s2c)| + |Requests(r.out)|
  {
    RequestsBoth(n.s2c, r.out);
    hide Requests;
  }

  lemma TimerReplies(s: Server)
    requires ServerTimer(s).Ok?
    ensures |ServerTimer(s).state.replies| + |Requests(ServerTimer(s).out)| == |s.replies|
  {
    if s.replies != [] {
      OneOrNone(Data(s.replies[0]));
    }
    OneRequest(Msg(0, 0, 0, false));
    assert [] + [Fin] == [Fin];
    hide Requests;
    assert s.replies != [] ==> [Data(s.replies[0])] + [Fin] == [Data(s.replies[0]), Fin];
  }

  lemma DataReplies(s: Server, m: Msg)
    requires ServerData(s, m).Ok?
    ensures |ServerData(s, m).state.replies| + |Requests(ServerData(s, m).out)| ==
      |s.replies| + if m.replyLength == 0 then 0 else 1
  {
    OneOrNone(Data(m));
    OneRequest(m);
    hide Requests;
    assert [Data(m)] + [Fin] == [Data(m), Fin];
  }

  /** Every event passes the requests and replies on, except for those that are dropped. */
  lemma EventConserves(n: Net, e: Event, n': Net)
    requires Enabled(n, e) && Apply(n, e) == Ok(n', [])
    ensures n'.c.received + Unanswered(n') + (if Drops(n, e) then 1 else 0)
      == n.c.received + Unanswered(n) + |n'.log| - |n.log|
  {
    match e
    case ServerTimerFires =>
      ServerStep(n, ServerTimer(n.s), 0, n');
      TimerReplies(n.s);
      assert n.c2s[0..] == n.c2s;
    case ServerReceives =>
      var r := if n.c2s[0].Data? then ServerData(n.s, n.c2s[0].msg) else ServerPeerClosed(n.s);
      ServerStep(n, r, 1, n');
      RequestsFirst(n.c2s[0], n.c2s[1..]);
      assert [n.c2s[0]] + n.c2s[1..] == n.c2s;
      if n.c2s[0].Data? {
        DataReplies(n.s, n.c2s[0].msg);
      } else {
        assert Requests(r.out) == [];
      }
    case ServerSocketCloses =>
      ServerStep(n, ServerClosed(n.s), 0, n');
      assert n.c2s[0..] == n.c2s && Requests([]) == [];
    case ClientReceives =>
      ClientStep(n, if n.s2c[0].Data? then ClientData(n.c) else ClientPeerClosed(n.c), 1, n');
      RequestsFirst(n.s2c[0], n.s2c[1..]);
      assert [n.s2c[0]] + n.s2c[1..] == n.s2c;
    case ClientTimerFires(l, d) =>
      ClientStep(n, ClientTimer(n.c, l, d), 0, n');
      assert n.s2c[0..] == n.s2c;
    case ConnectionOpens(l, d) =>
      ClientStep(n, ClientEstablished(n.c, l, d), 0, n');
      assert n.s2c[0..] == n.s2c;
    case ClientSocketCloses =>
      ClientStep(n, ClientClosed(n.c), 0, n');
      assert n.s2c[0..] == n.s2c;
  }

  /** A request that is dropped was the last one sent. */
  lemma DropsLast(n: Net, requests: int, e: Event)
    requires SessionInv(n, requests) && Drops(n, e)
    ensures !Answered(n.log)
  {
    hide LogOk;
    assert n.log != [] && n.log[|n.log| - 1].replyLength == 0;
  }

  lemma {:induction false} RunConserves(requests: int, states: seq<Net>, events: seq<Event>)
    requires IsRun(requests, states, events)
    ensures var n := states[|events|];
      Answered(n.log) ==> n.c.received + Unanswered(n) == |n.log|
    decreases |events|
  {
    var n := |events| - 1;
    if events != [] {
      RunStep(requests, states, events, n);
      hide Apply, Enabled, SessionInv, Unanswered, Drops, Sends;
      RunConserves(requests, states[..|events|], events[..n]);
      RequestDrawn(states[n], events[n], states[n + 1]);
      EventConserves(states[n], events[n], states[n + 1]);
      if Answered(states[n + 1].log) {
        assert forall i :: 0 <= i < |states[n].log| ==> states[n + 1].log[i] == states[n].log[i];
        if Drops(states[n], events[n]) {
          DropsLast(states[n], requests, events[n]);
        }
      }
    }
  }

  /** As long as every request asks for a reply, each has brought one or will; at the end all have. */
  lemma EveryRequestAnswered(requests: int, states: seq<Net>, events: seq<Event>)
    requires IsRun(requests, states, events)
    ensures var n := states[|events|];
      && (Answered(n.log) ==> n.c.received + Unanswered(n) == |n.log|)
      && (Over(n) ==> n.c.received == Total(requests))
  {
    RunConserves(requests, states, events);
    RunKeeps(requests, states, events);
    var n := states[|events|];
    if Over(n) {
      OverIsOver(n, requests);
      NothingLeft(n, requests);
    }
  }

  lemma NothingLeft(n: Net, requests: int)
    requires SessionInv(n, requests) && Over(n)
    ensures Unanswered(n) == 0
  {
    hide LogOk, Answered;
  }

  /** When the client has closed, the server closes too as soon as it has sent a reply that it has delayed. */
  lemma ClosesAfterPeer(s: Server)
    requires s.sock == Connected
    ensures var closing := ServerTimer(ServerPeerClosed(s).state);
      && closing.Ok? && closing.state.sock == Closed
      && closing.out == (if s.replies == [] then [] else [Data(s.replies[0])]) + [Fin]
  {
  }
}
