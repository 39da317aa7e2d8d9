/**
 A client thread and a server thread that exchange requests and replies over a reliable
 connection: one request at a time, and one reusable timer on each side.
 */
module TcpApplication {
  import opened Common

  datatype Sock = Bound | Connecting | Connected | PeerClosed | LocallyClosed | Closed

  /** A request, and later the reply to it. */
  datatype Msg = Msg(replyLength: nat, delay: nat, number: nat, last: bool)

  datatype Packet = Data(msg: Msg) | Fin

  /** A callback fails if it schedules a scheduled timer or uses the socket in a state that forbids it. */
  datatype Result<S> = Error | Ok(state: S, out: seq<Packet>)

  predicate MaySend(s: Sock) {
    s == Connected || s == Connecting || s == PeerClosed
  }

  /** The socket after close(). */
  function AfterClose(s: Sock): Sock {
    if s == Connected then LocallyClosed else Closed
  }

  /** The socket when the other side has closed. */
  function AfterPeerClosed(s: Sock): Sock {
    if s == Connected then PeerClosed else Closed
  }

  /* ---------- the client thread ---------- */

  datatype Phase = Waiting | Running | Disconnected | Finish

  datatype Client =
    Client(phase: Phase, toSend: Ulong, timer: bool, sock: Sock, sent: nat, received: nat, removed: bool)

  function Decremented(n: Ulong): Ulong {
    if n == 0 then ULONG - 1 else n - 1
  }

  /** The profile's values for a request are random: the length of the reply and the time to respond. */
  function ClientSends(c: Client, replyLength: nat, delay: nat): Result<Client> {
    var toSend := Decremented(c.toSend);
    var c' := c.(toSend := toSend, sent := c.sent + 1, phase := if toSend == 0 then Disconnected else c.phase);
    if !MaySend(c.sock) then Error
    else Ok(c', [Data(Msg(replyLength, delay, c'.sent, c'.phase == Disconnected))])
  }

  function ClientTimer(c: Client, replyLength: nat, delay: nat): Result<Client> {
    var c := c.(timer := false);
    match c.phase
    case Waiting => if c.sock != Bound then Error else Ok(c.(sock := Connecting), [])
    case Running => ClientSends(c, replyLength, delay)
    case Disconnected =>
      if c.sock == LocallyClosed then Ok(c, [])
      else if !MaySend(c.sock) then Error
      else Ok(c.(sock := AfterClose(c.sock)), [Fin])
    case Finish => Ok(c.(removed := true), [])
  }

  function ClientEstablished(c: Client, replyLength: nat, delay: nat): Result<Client> {
    var toSend: Ulong := if c.toSend < 1 then 1 else c.toSend;
    ClientSends(c.(sock := Connected, toSend := toSend, phase := Running), replyLength, delay)
  }

  function ClientData(c: Client): Result<Client> {
    if c.timer then Error else Ok(c.(received := c.received + 1, timer := true), [])
  }

  function ClientPeerClosed(c: Client): Result<Client> {
    Ok(c.(sock := AfterPeerClosed(c.sock)), [])
  }

  function ClientClosed(c: Client): Result<Client> {
    Ok(c.(sock := Closed, timer := true, phase := Finish), [])
  }

  /* ---------- the server thread ---------- */

  datatype Server = Server(doClose: bool, replies: seq<Msg>, timer: bool, sock: Sock, removed: bool)

  function CloseIfDone(s: Server, out: seq<Packet>): Result<Server> {
    if s.doClose && s.sock != LocallyClosed then
      if !MaySend(s.sock) then Error else Ok(s.(sock := AfterClose(s.sock)), out + [Fin])
    else Ok(s, out)
  }

  function ServerTimer(s: Server): Result<Server> {
    var s := s.(timer := false);
    if s.replies == [] then CloseIfDone(s, [])
    else if !MaySend(s.sock) then Error
    else CloseIfDone(s.(replies := s.replies[1..]), [Data(s.replies[0])])
  }

  function ServerData(s: Server, m: Msg): Result<Server> {
    var s := s.(doClose := m.last);
    if m.replyLength == 0 then Ok(s, [])
    else if m.delay > 0 then
      if s.timer then Error else Ok(s.(replies := s.replies + [m], timer := true), [])
    else if !MaySend(s.sock) then Error
    else CloseIfDone(s, [Data(m)])
  }

  function ServerPeerClosed(s: Server): Result<Server> {
    Ok(s.(sock := AfterPeerClosed(s.sock), doClose := true), [])
  }

  function ServerClosed(s: Server): Result<Server> {
    Ok(s.(sock := Closed, removed := true), [])
  }

  /* ---------- both together ---------- */

  /** The two threads, the packets under way in either direction, and all requests sent so far. */
  datatype Net = Net(c: Client, s: Server, c2s: seq<Packet>, s2c: seq<Packet>, log: seq<Msg>)

  datatype Event =
    | ClientTimerFires(replyLength: nat, delay: nat)
    | ConnectionOpens(replyLength: nat, delay: nat)
    | ClientReceives
    | ClientSocketCloses
    | ServerTimerFires
    | ServerReceives
    | ServerSocketCloses

  /** Timers fire when scheduled, packets arrive in order, and TCP reports the end when both sides have closed. */
  predicate Enabled(n: Net, e: Event) {
    match e
    case ClientTimerFires(_, _) => n.c.timer && !n.c.removed
    case ConnectionOpens(_, _) => n.c.sock == Connecting
    case ClientReceives => n.s2c != []
    case ClientSocketCloses => n.c.sock == Closed && n.c.phase != Finish
    case ServerTimerFires => n.s.timer && !n.s.removed
    case ServerReceives => n.c2s != []
    case ServerSocketCloses => n.s.sock == Closed && !n.s.removed
  }

  function Requests(ps: seq<Packet>): seq<Msg> {
    if ps == [] then [] else (if ps[0].Data? then [ps[0].msg] else []) + Requests(ps[1..])
  }

  function FromClient(n: Net, r: Result<Client>, taken: nat): Result<Net>
    requires taken <= |n.s2c|
  {
    if r.Error? then Error
    else Ok(Net(r.state, n.s, n.c2s + r.out, n.s2c[taken..], n.log + Requests(r.out)), [])
  }

  function FromServer(n: Net, r: Result<Server>, taken: nat): Result<Net>
    requires taken <= |n.c2s|
  {
    if r.Error? then Error
    else Ok(Net(n.c, r.state, n.c2s[taken..], n.s2c + r.out, n.log), [])
  }

  /** A packet for a removed thread is an error. */
  function Apply(n: Net, e: Event): Result<Net>
    requires Enabled(n, e)
  {
    match e
    case ClientTimerFires(l, d) => FromClient(n, ClientTimer(n.c, l, d), 0)
    case ConnectionOpens(l, d) => FromClient(n, ClientEstablished(n.c, l, d), 0)
    case ClientReceives =>
      if n.c.removed then Error
      else FromClient(n, if n.s2c[0].Data? then ClientData(n.c) else ClientPeerClosed(n.c), 1)
    case ClientSocketCloses => FromClient(n, ClientClosed(n.c), 0)
    case ServerTimerFires => FromServer(n, ServerTimer(n.s), 0)
    case ServerReceives =>
      if n.s.removed then Error
      else FromServer(n, if n.c2s[0].Data? then ServerData(n.s, n.c2s[0].msg) else ServerPeerClosed(n.s), 1)
    case ServerSocketCloses => FromServer(n, ServerClosed(n.s), 0)
  }

  /** The number of requests comes from the profile as an int and is converted to an unsigned long. */
  function Initial(requests: int): Net {
    var c := Client(Waiting, requests % ULONG, true, Bound, 0, 0, false);
    Net(c, Server(false, [], false, Connected, false), [], [], [])
  }

  /* ---------- the invariant ---------- */

  /** The requests to be sent, one at least; a negative number makes nearly 2^64. */
  function Total(requests: int): nat {
    if requests % ULONG == 0 then 1 else requests % ULONG
  }

  /** An int is the number of requests sent, one at least, exactly if it is not negative. */
  lemma RequestsSentExactly(requests: int)
    requires -0x8000_0000 <= requests <= 0x7fff_ffff
    ensures Total(requests) == (if requests < 1 then 1 else requests) <==> requests >= 0
    ensures requests < 0 ==> Total(requests) == ULONG + requests
  {
    if requests < 0 {
      assert requests % ULONG == (ULONG + requests) % ULONG == ULONG + requests;
    } else {
      assert requests % ULONG == requests;
    }
  }

  /** The log holds the requests sent: numbered from 1, and only the final one is flagged as last. */
  ghost predicate LogOk(n: Net, requests: int) {
    && |n.log| == n.c.sent <= Total(requests)
    && forall i :: 0 <= i < |n.log| ==> n.log[i].number == i + 1 && (n.log[i].last <==> i + 1 == Total(requests))
  }

  ghost predicate ServerIdle(s: Server) {
    !s.timer && s.replies == []
  }

  /** The client has closed: its Fin is under way or has reached the server. */
  ghost predicate ClosingDown(n: Net) {
    && ServerIdle(n.s)
    && ((n.s.sock == LocallyClosed && n.c2s == [Fin] && !n.s.removed) || (n.s.sock == Closed && n.c2s == []))
  }

  /** m is the request that is being served. */
  ghost predicate Current(n: Net, m: Msg) {
    n.log != [] && m == n.log[|n.log| - 1]
  }

  /** Where the one token of a running session is. */
  ghost predicate RequestUnderWay(n: Net) {
    && !n.c.timer && ServerIdle(n.s) && n.s2c == []
    && |n.c2s| == 1 && n.c2s[0].Data? && Current(n, n.c2s[0].msg)
    && n.c.sock == Connected && n.s.sock == Connected && !n.s.removed
  }

  ghost predicate ServerWaits(n: Net) {
    && !n.c.timer && n.c2s == [] && n.s2c == []
    && n.s.timer && |n.s.replies| == 1 && Current(n, n.s.replies[0]) && n.s.doClose == n.s.replies[0].last
    && n.c.sock == Connected && n.s.sock == Connected && !n.s.removed
  }

  ghost predicate ReplyUnderWay(n: Net) {
    && !n.c.timer && ServerIdle(n.s) && n.c2s == []
    && n.s2c != [] && n.s2c[0].Data? && Current(n, n.s2c[0].msg)
    && n.s2c[1..] == (if n.s2c[0].msg.last then [Fin] else [])
    && n.s.sock == (if n.s2c[0].msg.last then LocallyClosed else Connected)
    && n.c.sock == Connected && !n.s.removed
  }

  ghost predicate ClientWaits(n: Net) {
    && n.c.timer && ServerIdle(n.s) && n.c2s == [] && !n.s.removed
    && if n.c.phase == Running then n.c.sock == Connected && n.s.sock == Connected && n.s2c == []
       else
         && n.s.sock == LocallyClosed
         && ((n.c.sock == Connected && n.s2c == [Fin]) || (n.c.sock == PeerClosed && n.s2c == []))
  }

  ghost predicate ClientClosing(n: Net) {
    && n.c.phase == Disconnected && !n.c.timer && ClosingDown(n)
    && ((n.c.sock == LocallyClosed && n.s2c == [Fin]) || (n.c.sock == Closed && n.s2c == []))
  }

  ghost predicate Inv(n: Net, requests: int) {
    && LogOk(n, requests)
    && match n.c.phase
       case Waiting =>
         && n.c.sent == 0 && n.c.toSend == requests % ULONG && !n.c.removed && n.c2s == [] && n.s2c == []
         && n.s == Server(false, [], false, Connected, false)
         && n.c.sock == (if n.c.timer then Bound else Connecting)
       case Finish =>
         n.c.sent == Total(requests) && n.c.sock == Closed && n.s2c == [] && n.c.timer == !n.c.removed && ClosingDown(n)
       case _ =>
         && !n.c.removed && n.c.sent >= 1
         && n.c.toSend == Total(requests) - n.c.sent && (n.c.phase == Disconnected <==> n.c.toSend == 0)
         && (RequestUnderWay(n) || ServerWaits(n) || ReplyUnderWay(n) || ClientWaits(n) || ClientClosing(n))
  }

  /** Every request asks for a reply. */
  ghost predicate Answered(log: seq<Msg>) {
    forall i :: 0 <= i < |log| ==> log[i].replyLength > 0
  }

  /** The request sent last asks for no reply, and is under way. */
  ghost predicate EmptyUnderWay(n: Net) {
    && n.c.phase in {Running, Disconnected} && RequestUnderWay(n)
    && n.c2s[0].msg.replyLength == 0 && Answered(n.log[..|n.log| - 1])
  }

  /** The request sent last asked for no reply, and both sides wait for the other. */
  ghost predicate Stalled(n: Net) {
    && n.c.phase in {Running, Disconnected} && !n.c.timer && !n.c.removed && !n.s.removed
    && ServerIdle(n.s) && n.c2s == [] && n.s2c == [] && n.c.sock == Connected && n.s.sock == Connected
    && n.log != [] && n.log[|n.log| - 1].replyLength == 0
  }

  /** What holds throughout a session. */
  ghost predicate SessionInv(n: Net, requests: int) {
    || (Inv(n, requests) && (Answered(n.log) || EmptyUnderWay(n)))
    || (LogOk(n, requests) && Stalled(n))
  }

  /** How far the session is from its end. */
  function Rank(n: Net, requests: int): nat {
    (if n.c.phase == Waiting then 4 * Total(requests) + (if n.c.timer then 2 else 1)
     else 4 * n.c.toSend + PlaceRank(n))
    + SockRank(n.c.sock) + SockRank(n.s.sock)
    + (if n.c.phase != Finish then 2 else if n.c.removed then 0 else 1) + (if n.s.removed then 0 else 1)
  }

  function PlaceRank(n: Net): nat {
    if n.c2s != [] && n.c2s[0].Data? then 4
    else if n.s.timer then 3
    else if n.s2c != [] && n.s2c[0].Data? then 2
    else if n.c.timer && n.c.phase != Finish then 1
    else 0
  }

  function SockRank(s: Sock): nat {
    match s case Closed => 0 case LocallyClosed => 1 case PeerClosed => 1 case _ => 2
  }

  /** The event does not fail, keeps the invariant and brings the session nearer to its end. */
  ghost predicate Keeps(n: Net, requests: int, e: Event)
    requires Enabled(n, e)
  {
    var r := Apply(n, e);
    r.Ok? && SessionInv(r.state, requests) && Rank(r.state, requests) < Rank(n, requests)
  }

  lemma OneRequest(m: Msg)
    ensures Requests([Data(m)]) == [m] && Requests([Fin]) == [] && Requests([]) == []
  {
    assert [Data(m)][1..] == [];
  }

  /** A request was sent; if it asks for no reply it is the first that does not. */
  lemma RequestSent(n: Net, m: Msg, n': Net, requests: int)
    requires Answered(n.log) && n'.log == n.log + [m] && n'.c.phase in {Running, Disconnected}
    requires Inv(n', requests) && RequestUnderWay(n')
    ensures SessionInv(n', requests)
  {
    hide Inv;
    assert n'.log[..|n'.log| - 1] == n.log;
    if m.replyLength > 0 {
      assert Answered(n'.log);
    } else {
      assert EmptyUnderWay(n');
    }
  }

  lemma NextRequestKeeps(n: Net, requests: int, l: nat, d: nat)
    requires Inv(n, requests) && Answered(n.log) && n.c.timer && n.c.phase == Running
    ensures Keeps(n, requests, ClientTimerFires(l, d))
  {
    var m := Msg(l, d, n.c.sent + 1, n.c.toSend == 1);
    assert ClientWaits(n);
    NextRequestSent(n, l, d);
    var n' := Apply(n, ClientTimerFires(l, d)).state;
    hide Apply, Requests, ServerWaits, ReplyUnderWay, ClientClosing, SessionInv, Answered;
    assert n'.c2s == [Data(m)];
    assert RequestUnderWay(n');
    RequestSent(n, m, n', requests);
  }

  lemma NextRequestSent(n: Net, l: nat, d: nat)
    requires n.c.timer && n.c.phase == Running && !n.c.removed && n.c.sock == Connected && n.c.toSend > 0
    ensures var m := Msg(l, d, n.c.sent + 1, n.c.toSend == 1);
      var toSend: Ulong := n.c.toSend - 1;
      var phase := if m.last then Disconnected else Running;
      var c := n.c.(timer := false, toSend := toSend, sent := m.number, phase := phase);
      Apply(n, ClientTimerFires(l, d)) == Ok(Net(c, n.s, n.c2s + [Data(m)], n.s2c, n.log + [m]), [])
  {
    OneRequest(Msg(l, d, n.c.sent + 1, n.c.toSend == 1));
    hide Requests;
  }

  lemma ClientTimerKeeps(n: Net, requests: int, l: nat, d: nat)
    requires Inv(n, requests) && Answered(n.log) && n.c.timer && !n.c.removed
    ensures Keeps(n, requests, ClientTimerFires(l, d))
  {
    hide Inv, Answered, Keeps;
    if n.c.phase == Running {
      NextRequestKeeps(n, requests, l, d);
    } else if n.c.phase == Disconnected {
      ClientClosesKeeps(n, requests, l, d);
    } else {
      OutsideTimerKeeps(n, requests, l, d);
    }
  }

  /** The client's timer before and after the session. */
  lemma OutsideTimerKeeps(n: Net, requests: int, l: nat, d: nat)
    requires Inv(n, requests) && Answered(n.log) && n.c.timer && !n.c.removed && n.c.phase in {Waiting, Finish}
    ensures Keeps(n, requests, ClientTimerFires(l, d))
  {
    OneRequest(Msg(0, 0, 0, false));
    hide Stalled, EmptyUnderWay, RequestUnderWay, ServerWaits, ReplyUnderWay, ClientWaits, ClientClosing;
    assert Apply(n, ClientTimerFires(l, d)).state.log == n.log;
  }

  lemma ClientClosesKeeps(n: Net, requests: int, l: nat, d: nat)
    requires Inv(n, requests) && Answered(n.log) && n.c.timer && !n.c.removed && n.c.phase == Disconnected
    ensures Keeps(n, requests, ClientTimerFires(l, d))
  {
    assert ClientWaits(n);
    ClientCloses(n, l, d);
    var n' := Apply(n, ClientTimerFires(l, d)).state;
    hide Apply, Stalled, EmptyUnderWay, RequestUnderWay, ServerWaits, ReplyUnderWay;
    assert ClientClosing(n');
    assert Keeps(n, requests, ClientTimerFires(l, d));
  }

  lemma ClientCloses(n: Net, l: nat, d: nat)
    requires n.c.timer && n.c.phase == Disconnected && !n.c.removed && n.c.sock in {Connected, PeerClosed}
      && n.c2s == []
    ensures var c := n.c.(timer := false, sock := AfterClose(n.c.sock));
      Apply(n, ClientTimerFires(l, d)) == Ok(Net(c, n.s, [Fin], n.s2c, n.log), [])
  {
    OneRequest(Msg(0, 0, 0, false));
    assert n.c2s + [Fin] == [Fin] && n.log + [] == n.log && n.s2c[0..] == n.s2c;
  }

  lemma ConnectionOpensKeeps(n: Net, requests: int, l: nat, d: nat)
    requires Inv(n, requests) && Answered(n.log) && n.c.sock == Connecting
    ensures Keeps(n, requests, ConnectionOpens(l, d))
  {
    var m := Msg(l, d, 1, Total(requests) == 1);
    ConnectionOpened(n, requests, l, d);
    var n' := Apply(n, ConnectionOpens(l, d)).state;
    hide Apply, SessionInv, Answered;
    assert RequestUnderWay(n');
    assert Rank(n', requests) < Rank(n, requests);
    assert Inv(n', requests);
    hide Inv, Rank, RequestUnderWay;
    RequestSent(n, m, n', requests);
    assert Keeps(n, requests, ConnectionOpens(l, d));
  }

  lemma ConnectionOpened(n: Net, requests: int, l: nat, d: nat)
    requires n.c.sock == Connecting && n.c.sent == 0 && n.c.toSend == requests % ULONG && n.c2s == [] && n.s2c == []
    ensures var left := Total(requests) - 1;
      var c := n.c.(sock := Connected, toSend := left, sent := 1, phase := if left == 0 then Disconnected else Running);
      var m := Msg(l, d, 1, left == 0);
      Apply(n, ConnectionOpens(l, d)) == Ok(Net(c, n.s, [Data(m)], [], n.log + [m]), [])
  {
    OneRequest(Msg(l, d, 1, Total(requests) == 1));
    hide Requests;
    assert n.c2s + [Data(Msg(l, d, 1, Total(requests) == 1))] == [Data(Msg(l, d, 1, Total(requests) == 1))];
  }

  lemma ClientReceivesKeeps(n: Net, requests: int)
    requires Inv(n, requests) && Answered(n.log) && n.s2c != []
    ensures Keeps(n, requests, ClientReceives)
  {
    hide Keeps, Answered;
    if ReplyUnderWay(n) {
      ClientGetsReply(n, requests);
    } else {
      assert n.c.phase == Disconnected && (ClientWaits(n) || ClientClosing(n)) && n.s2c == [Fin];
      ClientGetsFin(n, requests);
    }
  }

  lemma ClientGetsReply(n: Net, requests: int)
    requires Inv(n, requests) && Answered(n.log) && ReplyUnderWay(n)
    ensures Keeps(n, requests, ClientReceives)
  {
    assert n.c.phase in {Running, Disconnected};
    OneRequest(Msg(0, 0, 0, false));
    hide Stalled, EmptyUnderWay, RequestUnderWay, ServerWaits, ClientClosing;
    var n' := Apply(n, ClientReceives).state;
    assert n'.log == n.log && n'.s == n.s && n'.c2s == n.c2s && n'.s2c == n.s2c[1..];
    assert ClientWaits(n');
  }

  lemma ClientGetsFin(n: Net, requests: int)
    requires Inv(n, requests) && Answered(n.log) && n.c.phase == Disconnected
    requires (ClientWaits(n) || ClientClosing(n)) && n.s2c == [Fin]
    ensures Keeps(n, requests, ClientReceives)
  {
    ClientHearsFin(n);
    var n' := Apply(n, ClientReceives).state;
    hide Apply, Stalled, EmptyUnderWay, RequestUnderWay, ServerWaits, ReplyUnderWay;
    assert if ClientWaits(n) then ClientWaits(n') else ClientClosing(n');
  }

  lemma ClientHearsFin(n: Net)
    requires n.s2c == [Fin] && !n.c.removed
    ensures Apply(n, ClientReceives) == Ok(n.(c := n.c.(sock := AfterPeerClosed(n.c.sock)), s2c := []), [])
  {
    OneRequest(Msg(0, 0, 0, false));
    assert n.c2s + [] == n.c2s && n.log + [] == n.log && n.s2c[1..] == [];
  }

  lemma SocketClosesKeeps(n: Net, requests: int, e: Event)
    requires Inv(n, requests) && Answered(n.log) && (e.ClientSocketCloses? || e.ServerSocketCloses?) && Enabled(n, e)
    ensures Keeps(n, requests, e)
  {
    hide Keeps, Answered;
    if e.ClientSocketCloses? {
      assert n.c.phase == Disconnected && ClientClosing(n);
      ClientSocketClosesKeeps(n, requests);
    } else {
      assert ClosingDown(n) && (n.c.phase == Finish || ClientClosing(n));
      ServerSocketClosesKeeps(n, requests);
    }
  }

  lemma ClientSocketClosesKeeps(n: Net, requests: int)
    requires Inv(n, requests) && Answered(n.log) && n.c.phase == Disconnected && ClientClosing(n) && n.c.sock == Closed
    ensures Keeps(n, requests, ClientSocketCloses)
  {
    OneRequest(Msg(0, 0, 0, false));
    hide Stalled, EmptyUnderWay, RequestUnderWay, ServerWaits, ReplyUnderWay, ClientWaits;
    var n' := Apply(n, ClientSocketCloses).state;
    assert n'.log == n.log && n'.c2s == n.c2s && n'.s2c == n.s2c;
  }

  lemma ServerSocketClosesKeeps(n: Net, requests: int)
    requires Inv(n, requests) && Answered(n.log) && ClosingDown(n) && n.s.sock == Closed && !n.s.removed
    requires n.c.phase == Finish || (n.c.phase == Disconnected && ClientClosing(n))
    ensures Keeps(n, requests, ServerSocketCloses)
  {
    hide Stalled, EmptyUnderWay, RequestUnderWay, ServerWaits, ReplyUnderWay, ClientWaits;
    var n' := Apply(n, ServerSocketCloses).state;
    assert n'.c == n.c && n'.log == n.log && n'.c2s == n.c2s && n'.s2c == n.s2c && ClosingDown(n');
  }

  lemma ServerTimerKeeps(n: Net, requests: int)
    requires Inv(n, requests) && Answered(n.log) && n.s.timer && !n.s.removed
    ensures Keeps(n, requests, ServerTimerFires)
  {
    hide Stalled, EmptyUnderWay;
    assert ServerWaits(n);
    assert ReplyUnderWay(Apply(n, ServerTimerFires).state);
  }

  lemma ServerReceivesKeeps(n: Net, requests: int)
    requires Inv(n, requests) && Answered(n.log) && n.c2s != []
    ensures Keeps(n, requests, ServerReceives)
  {
    hide Keeps, Answered;
    if RequestUnderWay(n) {
      ServerGetsRequest(n, requests);
    } else {
      assert ClosingDown(n) && n.c2s == [Fin];
      ServerGetsFin(n, requests);
    }
  }

  lemma ServerGetsRequest(n: Net, requests: int)
    requires Inv(n, requests) && Answered(n.log) && RequestUnderWay(n)
    ensures Keeps(n, requests, ServerReceives)
  {
    assert n.c.phase in {Running, Disconnected} && n.c2s == [n.c2s[0]];
    hide Stalled, EmptyUnderWay, ClosingDown, ClientClosing, ClientWaits;
    var n' := Apply(n, ServerReceives).state;
    assert n.c2s[0].msg.replyLength > 0;
    assert if n.c2s[0].msg.delay > 0 then ServerWaits(n') else ReplyUnderWay(n');
  }

  lemma ServerGetsFin(n: Net, requests: int)
    requires Inv(n, requests) && Answered(n.log) && ClosingDown(n) && n.c2s == [Fin]
    ensures Keeps(n, requests, ServerReceives)
  {
    assert n.c.phase != Finish ==> n.c.phase == Disconnected && ClientClosing(n);
    hide Stalled, EmptyUnderWay, RequestUnderWay, ServerWaits, ReplyUnderWay, ClientWaits;
    var n' := Apply(n, ServerReceives).state;
    assert n'.c == n.c && n'.log == n.log && n'.s2c == n.s2c && ClosingDown(n');
  }

  /** A request that asks for no reply is dropped by the server; nothing else can happen before. */
  lemma EmptyRequestKeeps(n: Net, requests: int, e: Event)
    requires Inv(n, requests) && EmptyUnderWay(n) && Enabled(n, e)
    ensures e.ServerReceives? && Keeps(n, requests, e) && Stalled(Apply(n, e).state)
  {
    assert n.c2s == [n.c2s[0]];
  }

  /** And then nothing happens any more. */
  lemma StalledForEver(n: Net, e: Event)
    requires Stalled(n)
    ensures !Enabled(n, e)
  {
  }

  /** No callback fails, and the invariant is kept. */
  lemma StepKeeps(n: Net, requests: int, e: Event)
    requires SessionInv(n, requests) && Enabled(n, e)
    ensures Keeps(n, requests, e)
  {
    if Stalled(n) {
      StalledForEver(n, e);
    } else if EmptyUnderWay(n) {
      EmptyRequestKeeps(n, requests, e);
    } else {
      AnsweredStepKeeps(n, requests, e);
    }
  }

  lemma AnsweredStepKeeps(n: Net, requests: int, e: Event)
    requires Inv(n, requests) && Answered(n.log) && Enabled(n, e)
    ensures Keeps(n, requests, e)
  {
    hide Inv, Apply, Answered, Rank, SessionInv;
    match e
    case ClientTimerFires(l, d) => ClientTimerKeeps(n, requests, l, d);
    case ConnectionOpens(l, d) => ConnectionOpensKeeps(n, requests, l, d);
    case ClientReceives => ClientReceivesKeeps(n, requests);
    case ServerTimerFires => ServerTimerKeeps(n, requests);
    case ServerReceives => ServerReceivesKeeps(n, requests);
    case _ => SocketClosesKeeps(n, requests, e);
  }

  /* ---------- whole runs ---------- */

  /** A run of the session: states[i] becomes states[i + 1] by events[i], which must not fail. */
  ghost predicate IsRun(requests: int, states: seq<Net>, events: seq<Event>) {
    && |states| == |events| + 1 && states[0] == Initial(requests)
    && forall i :: 0 <= i < |events| ==>
         Enabled(states[i], events[i]) && Apply(states[i], events[i]) == Ok(states[i + 1], [])
  }

  lemma {:induction false} RunKeeps(requests: int, states: seq<Net>, events: seq<Event>)
    requires IsRun(requests, states, events)
    ensures SessionInv(states[|events|], requests)
    ensures |events| + Rank(states[|events|], requests) <= Rank(Initial(requests), requests)
    decreases |events|
  {
    if events != [] {
      var k := |events| - 1;
      hide SessionInv, Apply, Rank, Enabled;
      RunKeeps(requests, states[..|events|], events[..k]);
      StepKeeps(states[k], requests, events[k]);
    }
  }

  /** What lies in four places: request under way, server timer, reply under way, client timer within the session. */
  function Tokens(n: Net): nat {
    |Requests(n.c2s)| + (if n.s.timer then 1 else 0) + |Requests(n.s2c)|
    + (if n.c.timer && n.c.phase in {Running, Disconnected} then 1 else 0)
  }

  ghost predicate Over(n: Net) {
    n.c.removed && n.s.removed
  }

  /** Never two tokens. */
  lemma OneToken(n: Net, requests: int)
    requires SessionInv(n, requests)
    ensures Tokens(n) <= 1
    ensures n.c.phase == Running && !Stalled(n) ==> Tokens(n) == 1
  {
    assert Requests([]) == [];
    hide LogOk, Answered, Requests;
    if n.c2s != [] {
      OneOrNone(n.c2s[0]);
      assert n.c2s == [n.c2s[0]];
    }
    if n.s2c != [] {
      OneOrNone(n.s2c[0]);
      assert n.s2c == [n.s2c[0]] || n.s2c == [n.s2c[0], Fin];
    }
  }

  lemma OneOrNone(p: Packet)
    ensures |Requests([p])| == (if p.Data? then 1 else 0)
    ensures |Requests([p, Fin])| == |Requests([p])|
  {
    assert [p][1..] == [] && [p, Fin][1..] == [Fin] && [Fin][1..] == [];
  }

  /** Until both threads are removed there is an event, unless the session has stalled. */
  lemma NeverStuck(n: Net, requests: int) returns (e: Event)
    requires Inv(n, requests) && !Over(n)
    ensures Enabled(n, e)
  {
    e := if n.c.timer && !n.c.removed then ClientTimerFires(1, 0)
         else if n.c.sock == Connecting then ConnectionOpens(1, 0)
         else if n.s2c != [] then ClientReceives
         else if n.c2s != [] then ServerReceives
         else if n.s.timer then ServerTimerFires
         else if n.c.sock == Closed && n.c.phase != Finish then ClientSocketCloses
         else ServerSocketCloses;
  }

  /** Nothing happens after the end, which a session reaches only if every request was answered. */
  lemma OverIsOver(n: Net, requests: int)
    requires SessionInv(n, requests) && Over(n)
    ensures Answered(n.log) && |n.log| == Total(requests) && forall e :: !Enabled(n, e)
  {
    hide Answered;
  }

  /** A session that stops is over exactly if all its requests asked for a reply. */
  lemma StopsExactly(n: Net, requests: int)
    requires SessionInv(n, requests) && forall e :: !Enabled(n, e)
    ensures Over(n) <==> Answered(n.log)
  {
    if Over(n) {
      OverIsOver(n, requests);
    } else if Inv(n, requests) {
      var e := NeverStuck(n, requests);
      assert false;
    }
  }

  /**
   The session, over every run: no callback can fail (in particular no timer is scheduled twice),
   there is never more than one token, the requests are numbered and only the final one is flagged
   as last, the number of events is bounded, and a session that stops has sent all its requests and
   removed both threads exactly if every request asked for a reply.
   */
  lemma SessionCorrect(requests: int, states: seq<Net>, events: seq<Event>)
    requires IsRun(requests, states, events)
    ensures var n := states[|events|];
      && (forall e :: Enabled(n, e) ==> Apply(n, e).Ok?)
      && Tokens(n) <= 1
      && LogOk(n, requests)
      && |events| <= 4 * Total(requests) + 9
      && (Over(n) ==> |n.log| == Total(requests))
      && ((forall e :: !Enabled(n, e)) ==> (Over(n) <==> Answered(n.log)))
  {
    var n := states[|events|];
    RunKeeps(requests, states, events);
    OneToken(n, requests);
    assert LogOk(n, requests);
    hide SessionInv, Apply, Enabled, Tokens, LogOk;
    forall e | Enabled(n, e)
      ensures Apply(n, e).Ok?
    {
      StepKeeps(n, requests, e);
    }
    if Over(n) {
      OverIsOver(n, requests);
    }
    if forall e :: !Enabled(n, e) {
      StopsExactly(n, requests);
    }
  }

  lemma Opened(requests: int)
    ensures var n := Initial(requests); var e := ClientTimerFires(0, 0);
      Enabled(n, e) && Apply(n, e) == Ok(n.(c := n.c.(timer := false, sock := Connecting)), [])
  {
    OneRequest(Msg(0, 0, 0, false));
    var n := Initial(requests);
    assert n.c2s + [] == n.c2s && n.log + [] == n.log && n.s2c[0..] == n.s2c;
  }

  lemma FirstSent(requests: int, n: Net)
    requires var n0 := Initial(requests); n == n0.(c := n0.c.(timer := false, sock := Connecting))
    ensures var r := Apply(n, ConnectionOpens(0, 0));
      r.Ok? && r.out == [] && Inv(r.state, requests) && EmptyUnderWay(r.state)
  {
    var m := Msg(0, 0, 1, Total(requests) == 1);
    OneRequest(m);
    hide Requests;
    var n' := Apply(n, ConnectionOpens(0, 0)).state;
    assert n'.log == [m] && n'.c2s == [Data(m)];
  }

  lemma Dropped(requests: int, n: Net)
    requires Inv(n, requests) && EmptyUnderWay(n)
    ensures var r := Apply(n, ServerReceives); r.Ok? && r.out == [] && Stalled(r.state)
  {
    hide Inv, EmptyUnderWay, Stalled, SessionInv, Rank;
    EmptyRequestWaits(n);
    EmptyRequestKeeps(n, requests, ServerReceives);
    NothingLost(n, ServerReceives);
  }

  lemma EmptyRequestWaits(n: Net)
    requires EmptyUnderWay(n)
    ensures Enabled(n, ServerReceives)
  {
  }

  /** For every number of requests there is a run that stalls: the first request asks for no reply. */
  lemma EmptyReplyStalls(requests: int) returns (states: seq<Net>, events: seq<Event>)
    ensures IsRun(requests, states, events)
    ensures var n := states[|events|]; !Over(n) && forall e :: !Enabled(n, e)
  {
    var e0, e1, e2 := ClientTimerFires(0, 0), ConnectionOpens(0, 0), ServerReceives;
    Opened(requests);
    var n0 := Initial(requests);
    var n1 := Apply(n0, e0).state;
    assert Enabled(n1, e1);
    FirstSent(requests, n1);
    var n2 := Apply(n1, e1).state;
    EmptyRequestWaits(n2);
    Dropped(requests, n2);
    var n3 := Apply(n2, e2).state;
    assert !Over(n3);
    assert Apply(n0, e0) == Ok(n1, []) && Apply(n1, e1) == Ok(n2, []) && Apply(n2, e2) == Ok(n3, []);
    hide Apply, Enabled, Initial, Inv, EmptyUnderWay, Stalled;
    states, events := [n0, n1, n2, n3], [e0, e1, e2];
    forall e
      ensures !Enabled(n3, e)
    {
      StalledForEver(n3, e);
    }
  }

  /* ---------- the two threads as objects ---------- */

  class ClientThread {
    var threadState: Phase
    var noRequestsToSend: Ulong
    var selfMsg: bool
    var socket: Sock
    var noPacketSend: nat
    var noPacketReceived: nat
    var removed: bool

    function State(): Client
      reads this
    {
      Client(threadState, noRequestsToSend, selfMsg, socket, noPacketSend, noPacketReceived, removed)
    }

    /** The callback did what r says: failed, or reached that state and sent those packets. */
    ghost predicate Did(r: Result<Client>, ok: bool, out: seq<Packet>)
      reads this
    {
      ok == r.Ok? && (r.Ok? ==> State() == r.state && out == r.out)
    }

    constructor (requests: int)
      ensures State() == Initial(requests).c
    {
      threadState, noRequestsToSend, selfMsg, socket := Waiting, requests % ULONG, true, Bound;
      noPacketSend, noPacketReceived, removed := 0, 0, false;
    }

    method SendRequest(replyLength: nat, delay: nat) returns (ok: bool, out: seq<Packet>)
      modifies this
      ensures Did(ClientSends(old(State()), replyLength, delay), ok, out)
    {
      noRequestsToSend := Decremented(noRequestsToSend);
      if noRequestsToSend <= 0 {
        threadState := Disconnected;
      }
      noPacketSend := noPacketSend + 1;
      ok := MaySend(socket);
      out := [Data(Msg(replyLength, delay, noPacketSend, threadState == Disconnected))];
    }

    method TimerExpired(replyLength: nat, delay: nat) returns (ok: bool, out: seq<Packet>)
      modifies this
      ensures Did(ClientTimer(old(State()), replyLength, delay), ok, out)
    {
      selfMsg, ok, out := false, true, [];
      match threadState {
        case Waiting =>
          ok := socket == Bound;
          socket := Connecting;
        case Running => ok, out := SendRequest(replyLength, delay);
        case Disconnected =>
          if socket != LocallyClosed {
            ok, out := MaySend(socket), [Fin];
            socket := AfterClose(socket);
          }
        case Finish => removed := true;
      }
    }

    method SocketEstablished(replyLength: nat, delay: nat) returns (ok: bool, out: seq<Packet>)
      modifies this
      ensures Did(ClientEstablished(old(State()), replyLength, delay), ok, out)
    {
      socket := Connected;
      if noRequestsToSend < 1 {
        noRequestsToSend := 1;
      }
      threadState := Running;
      ok, out := SendRequest(replyLength, delay);
    }

    method SocketDataArrived() returns (ok: bool, out: seq<Packet>)
      modifies this
      ensures Did(ClientData(old(State())), ok, out)
    {
      noPacketReceived, ok, out := noPacketReceived + 1, !selfMsg, [];
      selfMsg := true;
    }

    method SocketPeerClosed() returns (ok: bool, out: seq<Packet>)
      modifies this
      ensures Did(ClientPeerClosed(old(State())), ok, out)
    {
      socket, ok, out := AfterPeerClosed(socket), true, [];
    }

    method SocketClosed() returns (ok: bool, out: seq<Packet>)
      modifies this
      ensures Did(ClientClosed(old(State())), ok, out)
    {
      socket := Closed;
      if selfMsg {
        selfMsg := false;
      }
      ok, out := !selfMsg, [];
      selfMsg := true;
      threadState := Finish;
    }
  }

  class ServerThread {
    var doClose: bool
    var replies: seq<Msg>
    var selfMsg: bool
    var socket: Sock
    var removed: bool

    function State(): Server
      reads this
    {
      Server(doClose, replies, selfMsg, socket, removed)
    }

    ghost predicate Did(r: Result<Server>, ok: bool, out: seq<Packet>)
      reads this
    {
      ok == r.Ok? && (r.Ok? ==> State() == r.state && out == r.out)
    }

    constructor ()
      ensures State() == Server(false, [], false, Connected, false)
    {
      doClose, replies, selfMsg, socket, removed := false, [], false, Connected, false;
    }

    method TimerExpired() returns (ok: bool, out: seq<Packet>)
      modifies this
      ensures Did(ServerTimer(old(State())), ok, out)
    {
      selfMsg, ok, out := false, true, [];
      if replies != [] {
        ok, out := MaySend(socket), [Data(replies[0])];
        replies := replies[1..];
      }
      if doClose && socket != LocallyClosed {
        ok, out := ok && MaySend(socket), out + [Fin];
        socket := AfterClose(socket);
      }
    }

    method SocketDataArrived(m: Msg) returns (ok: bool, out: seq<Packet>)
      modifies this
      ensures Did(ServerData(old(State()), m), ok, out)
    {
      doClose, ok, out := m.last, true, [];
      if m.replyLength != 0 {
        if m.delay > 0 {
          replies := replies + [m];
          ok := !selfMsg;
          selfMsg := true;
        } else {
          ok, out := MaySend(socket), [Data(m)];
          if doClose && socket != LocallyClosed {
            ok, out := ok && MaySend(socket), out + [Fin];
            socket := AfterClose(socket);
          }
        }
      }
    }

    method SocketPeerClosed() returns (ok: bool, out: seq<Packet>)
      modifies this
      ensures Did(ServerPeerClosed(old(State())), ok, out)
    {
      socket, doClose, ok, out := AfterPeerClosed(socket), true, true, [];
    }

    method SocketClosed() returns (ok: bool, out: seq<Packet>)
      modifies this
      ensures Did(ServerClosed(old(State())), ok, out)
    {
      socket, removed, ok, out := Closed, true, true, [];
    }
  }

  /** A client and a server with the connection between them. */
  class Session {
    const client: ClientThread
    const server: ServerThread
    var c2s: seq<Packet>
    var s2c: seq<Packet>
    var log: seq<Msg>

    function State(): Net
      reads this, client, server
    {
      Net(client.State(), server.State(), c2s, s2c, log)
    }

    constructor (requests: int)
      ensures fresh(client) && fresh(server) && State() == Initial(requests)
    {
      client := new ClientThread(requests);
      server := new ServerThread();
      c2s, s2c, log := [], [], [];
    }

    /** Calls the callback for the event; what it sends is under way then. */
    method Handle(e: Event) returns (ok: bool)
      requires Enabled(State(), e)
      modifies this, client, server
      ensures ok <==> Apply(old(State()), e).Ok?
      ensures ok ==> State() == Apply(old(State()), e).state
    {
      hide Requests;
      if e.ClientTimerFires? || e.ConnectionOpens? || e.ClientReceives? || e.ClientSocketCloses? {
        ok := HandleAtClient(e);
      } else {
        ok := HandleAtServer(e);
      }
    }

    method HandleAtClient(e: Event) returns (ok: bool)
      requires Enabled(State(), e)
      requires e.ClientTimerFires? || e.ConnectionOpens? || e.ClientReceives? || e.ClientSocketCloses?
      modifies this, client
      ensures ok <==> Apply(old(State()), e).Ok?
      ensures ok ==> State() == Apply(old(State()), e).state
    {
      hide Requests, ClientTimer, ClientEstablished, ClientData, ClientPeerClosed, ClientClosed;
      var out;
      match e {
        case ClientTimerFires(l, d) => ok, out := client.TimerExpired(l, d);
        case ConnectionOpens(l, d) => ok, out := client.SocketEstablished(l, d);
        case ClientReceives =>
          if client.removed {
            return false;
          }
          var p := s2c[0];
          s2c := s2c[1..];
          if p.Data? {
            ok, out := client.SocketDataArrived();
          } else {
            ok, out := client.SocketPeerClosed();
          }
        case ClientSocketCloses => ok, out := client.SocketClosed();
      }
      c2s, log := c2s + out, log + Requests(out);
    }

    method HandleAtServer(e: Event) returns (ok: bool)
      requires Enabled(State(), e) && (e.ServerTimerFires? || e.ServerReceives? || e.ServerSocketCloses?)
      modifies this, server
      ensures ok <==> Apply(old(State()), e).Ok?
      ensures ok ==> State() == Apply(old(State()), e).state
    {
      hide Requests, ServerTimer, ServerData, ServerPeerClosed, ServerClosed;
      var out;
      match e {
        case ServerTimerFires => ok, out := server.TimerExpired();
        case ServerReceives =>
          if server.removed {
            return false;
          }
          var p := c2s[0];
          c2s := c2s[1..];
          if p.Data? {
            ok, out := server.SocketDataArrived(p.msg);
          } else {
            ok, out := server.SocketPeerClosed();
          }
        case ServerSocketCloses => ok, out := server.SocketClosed();
      }
      s2c := s2c + out;
    }
  }

  /** A session driven by events as long as they can happen: no callback fails, so what it does is a run. */
  method Run(requests: int, events: seq<Event>) returns (session: Session, handled: nat, ghost states: seq<Net>)
    ensures handled <= |events| && IsRun(requests, states, events[..handled])
    ensures session.State() == states[handled]
    ensures handled < |events| ==> !Enabled(session.State(), events[handled])
  {
    hide Apply, Enabled, Requests, SessionInv, Rank, Session.State, Initial;
    session := new Session(requests);
    handled, states := 0, [session.State()];
    while handled < |events| && Enabled(session.State(), events[handled])
      invariant fresh(session) && fresh(session.client) && fresh(session.server)
      invariant handled <= |events| && IsRun(requests, states, events[..handled])
      invariant session.State() == states[handled]
    {
      RunKeeps(requests, states, events[..handled]);
      StepKeeps(states[handled], requests, events[handled]);
      var ok := session.Handle(events[handled]);
      RunMore(requests, states, events[..handled], events[handled], session.State());
      assert events[..handled + 1] == events[..handled] + [events[handled]];
      handled, states := handled + 1, states + [session.State()];
    }
  }

  lemma RunMore(requests: int, states: seq<Net>, events: seq<Event>, e: Event, n: Net)
    requires IsRun(requests, states, events)
    requires Enabled(states[|events|], e) && Apply(states[|events|], e).Ok? && Apply(states[|events|], e).state == n
    ensures IsRun(requests, states + [n], events + [e])
  {
    NothingLost(states[|events|], e);
    hide Apply, Enabled;
  }

  /** What a callback sends is under way, and goes nowhere else. */
  lemma NothingLost(n: Net, e: Event)
    requires Enabled(n, e) && Apply(n, e).Ok?
    ensures Apply(n, e).out == []
  {
  }
}
