/** TCP with a limit on the connections that a host serves: the state machine, and the counter behind the limit. */
module TcpConnection {

  /* ---------- the state machine ---------- */

  datatype State =
    | INIT | LISTEN | SYN_SENT | SYN_RCVD | ESTABLISHED | CLOSE_WAIT | LAST_ACK
    | FIN_WAIT_1 | FIN_WAIT_2 | CLOSING | TIME_WAIT | CLOSED

  datatype Event =
    | IGNORE | OPEN_ACTIVE | OPEN_PASSIVE | SEND | CLOSE | ABORT
    | RCV_SYN | RCV_SYN_ACK | RCV_ACK | RCV_FIN | RCV_FIN_ACK | RCV_RST | RCV_UNEXP_SYN | RCV_DATA
    | TIMEOUT_CONN_ESTAB | TIMEOUT_FIN_WAIT_2 | TIMEOUT_2MSL

  /** What becomes of a connection in SYN_RCVD that is given up. */
  function GivenUp(worker: bool, active: bool): State {
    if worker || active then CLOSED else LISTEN
  }

  /**
   The state diagram, told event by event. worker: a connection forked for one client; active: opened
   from this side.
   */
  function Next(s: State, e: Event, worker: bool, active: bool): State {
    match e
    case OPEN_PASSIVE => if s == INIT then LISTEN else s
    case OPEN_ACTIVE => if s in {INIT, LISTEN} then SYN_SENT else s
    case SEND => if s == LISTEN then SYN_SENT else s
    case CLOSE =>
      if s in {LISTEN, SYN_SENT} then CLOSED
      else if s in {SYN_RCVD, ESTABLISHED} then FIN_WAIT_1
      else if s == CLOSE_WAIT then LAST_ACK
      else s
    case ABORT => if s == INIT then s else CLOSED
    case RCV_SYN => if s in {LISTEN, SYN_SENT} then SYN_RCVD else s
    case RCV_SYN_ACK => if s == SYN_SENT then ESTABLISHED else s
    case RCV_ACK =>
      if s == SYN_RCVD then ESTABLISHED
      else if s == FIN_WAIT_1 then FIN_WAIT_2
      else if s == CLOSING then TIME_WAIT
      else if s == LAST_ACK then CLOSED
      else s
    case RCV_FIN =>
      if s in {SYN_RCVD, ESTABLISHED} then CLOSE_WAIT
      else if s == FIN_WAIT_1 then CLOSING
      else if s == FIN_WAIT_2 then TIME_WAIT
      else s
    case RCV_FIN_ACK => if s == FIN_WAIT_1 then TIME_WAIT else s
    case RCV_RST => if s == SYN_RCVD then GivenUp(worker, active) else if s in {INIT, LISTEN} then s else CLOSED
    case RCV_UNEXP_SYN => if s in {INIT, LISTEN, SYN_SENT} then s else CLOSED
    case TIMEOUT_CONN_ESTAB =>
      if s == SYN_RCVD then GivenUp(worker, active) else if s == SYN_SENT then CLOSED else s
    case TIMEOUT_FIN_WAIT_2 => if s == FIN_WAIT_2 then CLOSED else s
    case TIMEOUT_2MSL => if s == TIME_WAIT then CLOSED else s
    case _ => s
  }

  /** The state after a sequence of events, and how often it changed. */
  function After(s: State, es: seq<Event>, worker: bool, active: bool): State {
    if es == [] then s else Next(After(s, es[..|es| - 1], worker, active), es[|es| - 1], worker, active)
  }

  function Changes(s: State, es: seq<Event>, worker: bool, active: bool): nat {
    if es == [] then 0
    else
      var before := es[..|es| - 1];
      Changes(s, before, worker, active)
      + if After(s, es, worker, active) == After(s, before, worker, active) then 0 else 1
  }

  /** How far a connection has come; -1 before SYN_RCVD. */
  function Rank(s: State): int {
    match s
    case SYN_RCVD => 0
    case ESTABLISHED => 1
    case FIN_WAIT_1 => 2 case CLOSE_WAIT => 2
    case FIN_WAIT_2 => 3 case CLOSING => 3 case LAST_ACK => 3
    case TIME_WAIT => 4
    case CLOSED => 5
    case _ => -1
  }

  /** A connection in state s cannot go back. */
  predicate OnTheWay(s: State, worker: bool, active: bool) {
    Rank(s) >= 1 || (Rank(s) == 0 && (worker || active))
  }

  /**
   A worker or an actively opened connection only moves forward from SYN_RCVD on, and every
   connection does from ESTABLISHED on: each change raises the rank, so there are at most 5, or 4
   after ESTABLISHED.
   */
  lemma {:induction false} OnlyForward(s: State, es: seq<Event>, worker: bool, active: bool)
    requires OnTheWay(s, worker, active)
    ensures Changes(s, es, worker, active) + Rank(s) <= Rank(After(s, es, worker, active)) <= 5
    ensures OnTheWay(After(s, es, worker, active), worker, active)
    ensures After(s, es, worker, active) !in {INIT, LISTEN, SYN_SENT}
  {
    if es != [] {
      OnlyForward(s, es[..|es| - 1], worker, active);
    }
  }

  /** n resets, each followed by a new SYN. */
  function Resets(n: nat): seq<Event> {
    if n == 0 then [] else Resets(n - 1) + [RCV_RST, RCV_SYN]
  }

  /** Any other connection goes back to LISTEN, and comes again to SYN_RCVD, as often as it is reset. */
  lemma {:induction false} ListenerReturns(n: nat)
    ensures After(SYN_RCVD, Resets(n), false, false) == SYN_RCVD
    ensures After(SYN_RCVD, Resets(n) + [RCV_RST], false, false) == LISTEN
    ensures Changes(SYN_RCVD, Resets(n), false, false) == 2 * n
  {
    if n > 0 {
      ListenerReturns(n - 1);
      var es := Resets(n - 1);
      assert (es + [RCV_RST])[..|es|] == es;
      assert Resets(n)[..|es| + 1] == es + [RCV_RST];
    }
    assert (Resets(n) + [RCV_RST])[..|Resets(n)|] == Resets(n);
  }

  /** In SYN_RCVD the number of changes to come is bounded exactly for workers and active connections. */
  lemma BoundedExactly(worker: bool, active: bool)
    ensures (forall es :: Changes(SYN_RCVD, es, worker, active) <= 5) <==> worker || active
  {
    if worker || active {
      forall es: seq<Event>
        ensures Changes(SYN_RCVD, es, worker, active) <= 5
      {
        OnlyForward(SYN_RCVD, es, worker, active);
      }
    } else {
      ListenerReturns(3);
    }
  }

  class Connection {
    var fsm: State
    var worker: bool
    const active: bool

    constructor (active: bool)
      ensures fsm == INIT && !worker && this.active == active
    {
      fsm, worker, this.active := INIT, false, active;
    }

    /** Takes the step of the state diagram; false if the connection is closed and to be deleted. */
    method PerformStateTransition(event: Event) returns (alive: bool)
      requires fsm != CLOSED
      modifies this`fsm
      ensures fsm == Next(old(fsm), event, worker, active)
      ensures alive <==> fsm != CLOSED
      ensures OnTheWay(old(fsm), worker, active) ==> fsm == old(fsm) || Rank(old(fsm)) < Rank(fsm)
    {
      if event == IGNORE {
        return true;
      }
      match fsm {
        case INIT =>
          match event {
            case OPEN_PASSIVE => fsm := LISTEN;
            case OPEN_ACTIVE => fsm := SYN_SENT;
            case _ =>
          }
        case LISTEN =>
          match event {
            case OPEN_ACTIVE => fsm := SYN_SENT;
            case SEND => fsm := SYN_SENT;
            case CLOSE => fsm := CLOSED;
            case ABORT => fsm := CLOSED;
            case RCV_SYN => fsm := SYN_RCVD;
            case _ =>
          }
        case SYN_RCVD =>
          match event {
            case CLOSE => fsm := FIN_WAIT_1;
            case ABORT => fsm := CLOSED;
            case TIMEOUT_CONN_ESTAB =>
              if worker {
                fsm := CLOSED;
              } else {
                fsm := if active then CLOSED else LISTEN;
              }
            case RCV_RST =>
              if worker {
                fsm := CLOSED;
              } else {
                fsm := if active then CLOSED else LISTEN;
              }
            case RCV_ACK => fsm := ESTABLISHED;
            case RCV_FIN => fsm := CLOSE_WAIT;
            case RCV_UNEXP_SYN => fsm := CLOSED;
            case _ =>
          }
        case SYN_SENT =>
          match event {
            case CLOSE => fsm := CLOSED;
            case ABORT => fsm := CLOSED;
            case TIMEOUT_CONN_ESTAB => fsm := CLOSED;
            case RCV_RST => fsm := CLOSED;
            case RCV_SYN_ACK => fsm := ESTABLISHED;
            case RCV_SYN => fsm := SYN_RCVD;
            case _ =>
          }
        case ESTABLISHED =>
          match event {
            case CLOSE => fsm := FIN_WAIT_1;
            case ABORT => fsm := CLOSED;
            case RCV_FIN => fsm := CLOSE_WAIT;
            case RCV_RST => fsm := CLOSED;
            case RCV_UNEXP_SYN => fsm := CLOSED;
            case _ =>
          }
        case CLOSE_WAIT =>
          match event {
            case CLOSE => fsm := LAST_ACK;
            case ABORT => fsm := CLOSED;
            case RCV_RST => fsm := CLOSED;
            case RCV_UNEXP_SYN => fsm := CLOSED;
            case _ =>
          }
        case LAST_ACK =>
          match event {
            case ABORT => fsm := CLOSED;
            case RCV_ACK => fsm := CLOSED;
            case RCV_RST => fsm := CLOSED;
            case RCV_UNEXP_SYN => fsm := CLOSED;
            case _ =>
          }
        case FIN_WAIT_1 =>
          match event {
            case ABORT => fsm := CLOSED;
            case RCV_FIN => fsm := CLOSING;
            case RCV_ACK => fsm := FIN_WAIT_2;
            case RCV_FIN_ACK => fsm := TIME_WAIT;
            case RCV_RST => fsm := CLOSED;
            case RCV_UNEXP_SYN => fsm := CLOSED;
            case _ =>
          }
        case FIN_WAIT_2 =>
          match event {
            case ABORT => fsm := CLOSED;
            case RCV_FIN => fsm := TIME_WAIT;
            case TIMEOUT_FIN_WAIT_2 => fsm := CLOSED;
            case RCV_RST => fsm := CLOSED;
            case RCV_UNEXP_SYN => fsm := CLOSED;
            case _ =>
          }
        case CLOSING =>
          match event {
            case ABORT => fsm := CLOSED;
            case RCV_ACK => fsm := TIME_WAIT;
            case RCV_RST => fsm := CLOSED;
            case RCV_UNEXP_SYN => fsm := CLOSED;
            case _ =>
          }
        case TIME_WAIT =>
          match event {
            case ABORT => fsm := CLOSED;
            case TIMEOUT_2MSL => fsm := CLOSED;
            case RCV_RST => fsm := CLOSED;
            case RCV_UNEXP_SYN => fsm := CLOSED;
            case _ =>
          }
        case CLOSED =>
      }
      alive := fsm != CLOSED;
    }

    /** Events one after the other, until the connection is closed. */
    method Process(events: seq<Event>) returns (changes: nat)
      modifies this`fsm
      ensures fsm == After(old(fsm), events, worker, active)
      ensures changes == Changes(old(fsm), events, worker, active)
      ensures OnTheWay(old(fsm), worker, active) ==> changes <= 5 - Rank(old(fsm))
    {
      hide Next;
      changes := 0;
      for i := 0 to |events|
        invariant fsm == After(old(fsm), events[..i], worker, active)
        invariant changes == Changes(old(fsm), events[..i], worker, active)
      {
        assert events[..i + 1][..i] == events[..i];
        var before := fsm;
        if fsm != CLOSED {
          var alive := PerformStateTransition(events[i]);
        } else {
          ClosedStays(events[i], worker, active);
        }
        changes := changes + if fsm == before then 0 else 1;
      }
      assert events[..|events|] == events;
      if OnTheWay(old(fsm), worker, active) {
        OnlyForward(old(fsm), events, worker, active);
      }
    }
  }

  lemma ClosedStays(e: Event, worker: bool, active: bool)
    ensures Next(CLOSED, e, worker, active) == CLOSED
  {
  }

  /* ---------- the limit ---------- */

  const INT_MAX := 0x7fff_ffff

  class TcpHack {
    var maxThreadCount: int
    var currentConnectionCount: int

    ghost predicate Valid()
      reads this
    {
      0 < maxThreadCount <= INT_MAX && 0 <= currentConnectionCount <= maxThreadCount
    }

    constructor (limit: int)
      requires limit <= INT_MAX
      ensures Valid() && currentConnectionCount == 0 && maxThreadCount == if limit <= 0 then INT_MAX else limit
    {
      maxThreadCount := if limit <= 0 then INT_MAX else limit;
      currentConnectionCount := 0;
    }

    method AcceptAnotherConnection() returns (accepted: bool)
      requires Valid()
      modifies this`currentConnectionCount
      ensures Valid()
      ensures accepted <==> old(currentConnectionCount) < maxThreadCount
      ensures currentConnectionCount == Accepted(old(currentConnectionCount), maxThreadCount)
    {
      if maxThreadCount > currentConnectionCount {
        currentConnectionCount := currentConnectionCount + 1;
        return true;
      }
      accepted := false;
    }

    method CanceledHalfOpenConnection() returns (canceled: bool)
      requires Valid()
      modifies this`currentConnectionCount
      ensures Valid()
      ensures canceled <==> old(currentConnectionCount) > 0
      ensures currentConnectionCount == Canceled(old(currentConnectionCount))
    {
      if currentConnectionCount <= 0 {
        return false;
      }
      currentConnectionCount := currentConnectionCount - 1;
      canceled := true;
    }
  }

  function Accepted(count: int, max: int): int {
    if count < max then count + 1 else count
  }

  function Canceled(count: int): int {
    if count > 0 then count - 1 else count
  }

  /** The live connections, whether each is a worker, and how many others were destroyed. */
  datatype Host = Host(count: int, conns: map<nat, bool>, othersDestroyed: nat)

  datatype Act = Create(id: nat) | Syn(id: nat, clone: nat) | Destroy(id: nat)

  /** Only a listening connection takes a SYN, and a worker never listens again. */
  predicate Possible(h: Host, a: Act) {
    match a
    case Create(id) => id !in h.conns
    case Syn(id, clone) => id in h.conns && !h.conns[id] && clone !in h.conns
    case Destroy(id) => id in h.conns
  }

  /**
   A SYN at a listening connection makes it a worker and leaves a clone listening, if the limit
   allows; the destructor gives back one place whatever the connection was.
   */
  function Do(h: Host, a: Act, max: int): Host
    requires Possible(h, a)
  {
    match a
    case Create(id) => h.(conns := h.conns[id := false])
    case Syn(id, clone) =>
      if h.count < max then h.(count := Accepted(h.count, max), conns := h.conns[id := true][clone := false]) else h
    case Destroy(id) =>
      Host(Canceled(h.count), h.conns - {id}, h.othersDestroyed + if h.conns[id] then 0 else 1)
  }

  ghost function Workers(h: Host): set<nat> {
    set id | id in h.conns && h.conns[id]
  }

  ghost predicate LimitInv(h: Host, max: int) {
    0 <= h.count <= max && |Workers(h)| <= h.count + h.othersDestroyed
  }

  lemma ActWorkers(h: Host, a: Act, max: int)
    requires Possible(h, a)
    ensures var h' := Do(h, a, max);
      match a
      case Create(id) => Workers(h') == Workers(h)
      case Syn(id, clone) => Workers(h') == if h.count < max then Workers(h) + {id} else Workers(h)
      case Destroy(id) => Workers(h') == Workers(h) - {id}
  {
  }

  lemma ActKeeps(h: Host, a: Act, max: int)
    requires LimitInv(h, max) && Possible(h, a)
    ensures LimitInv(Do(h, a, max), max)
  {
    ActWorkers(h, a, max);
    assert a.Destroy? ==> (a.id in Workers(h) <==> h.conns[a.id]);
    hide Workers;
  }

  /** A run from host h on. */
  ghost predicate IsRunFrom(max: int, h: Host, hosts: seq<Host>, acts: seq<Act>) {
    && |hosts| == |acts| + 1 && hosts[0] == h
    && forall i :: 0 <= i < |acts| ==> Possible(hosts[i], acts[i]) && hosts[i + 1] == Do(hosts[i], acts[i], max)
  }

  ghost predicate IsRun(max: int, hosts: seq<Host>, acts: seq<Act>) {
    IsRunFrom(max, Host(0, map[], 0), hosts, acts)
  }

  lemma RunPrefix(max: int, h: Host, hosts: seq<Host>, acts: seq<Act>)
    requires IsRunFrom(max, h, hosts, acts) && acts != []
    ensures var n := |acts| - 1;
      && IsRunFrom(max, h, hosts[..|acts|], acts[..n])
      && Possible(hosts[n], acts[n]) && hosts[n + 1] == Do(hosts[n], acts[n], max)
  {
    hide Do;
  }

  /** In every run the count stays in range; the workers exceed the limit by at most the other connections destroyed. */
  lemma {:induction false} LimitKept(max: int, hosts: seq<Host>, acts: seq<Act>)
    requires IsRun(max, hosts, acts) && max > 0
    ensures LimitInv(hosts[|acts|], max)
    ensures hosts[|acts|].othersDestroyed == 0 ==> |Workers(hosts[|acts|])| <= max
    decreases |acts|
  {
    if acts != [] {
      var n := |acts| - 1;
      RunPrefix(max, Host(0, map[], 0), hosts, acts);
      LimitKept(max, hosts[..|acts|], acts[..n]);
      ActKeeps(hosts[n], acts[n], max);
    } else {
      assert Workers(hosts[0]) == {};
    }
  }

  /* ---------- who listens ---------- */

  ghost function Listeners(h: Host): set<nat> {
    set id | id in h.conns && !h.conns[id]
  }

  function Created(acts: seq<Act>): nat {
    if acts == [] then 0 else Created(acts[..|acts| - 1]) + if acts[|acts| - 1].Create? then 1 else 0
  }

  lemma ListenersAfter(h: Host, a: Act, max: int)
    requires Possible(h, a)
    ensures var l, l' := Listeners(h), Listeners(Do(h, a, max));
      match a
      case Create(id) => id !in l && l' == l + {id}
      case Syn(id, clone) => id in l && clone !in l && l' == if h.count < max then l - {id} + {clone} else l
      case Destroy(id) => l' == l - {id} && (id in l <==> !h.conns[id])
  {
  }

  lemma ActListeners(h: Host, a: Act, max: int)
    requires Possible(h, a)
    ensures var h' := Do(h, a, max);
      |Listeners(h')| + h'.othersDestroyed == |Listeners(h)| + h.othersDestroyed + if a.Create? then 1 else 0
  {
    ListenersAfter(h, a, max);
    hide Listeners;
  }

  /** A SYN takes one connection away from those that listen, and gives one back. */
  lemma {:induction false} ListenersConserved(max: int, h: Host, hosts: seq<Host>, acts: seq<Act>)
    requires IsRunFrom(max, h, hosts, acts)
    ensures var h' := hosts[|acts|];
      |Listeners(h')| + h'.othersDestroyed == |Listeners(h)| + h.othersDestroyed + Created(acts)
    decreases |acts|
  {
    if acts != [] {
      var n := |acts| - 1;
      RunPrefix(max, h, hosts, acts);
      hide Do, Possible, Listeners;
      ListenersConserved(max, h, hosts[..|acts|], acts[..n]);
      ActListeners(hosts[n], acts[n], max);
    }
  }

  /** A host that listens goes on listening, as long as only workers are destroyed. */
  lemma StillListens(max: int, h: Host, hosts: seq<Host>, acts: seq<Act>)
    requires IsRunFrom(max, h, hosts, acts) && Listeners(h) != {}
    requires hosts[|acts|].othersDestroyed == h.othersDestroyed
    ensures Listeners(hosts[|acts|]) != {}
  {
    ListenersConserved(max, h, hosts, acts);
  }

  /* ---------- when the count is the number of workers ---------- */

  /** The act changes the count as it changes the number of workers. */
  predicate InStep(h: Host, a: Act) {
    a.Destroy? && a.id in h.conns ==> h.conns[a.id] || h.count == 0
  }

  lemma ActInStep(h: Host, a: Act, max: int)
    requires Possible(h, a) && h.count == |Workers(h)|
    ensures Do(h, a, max).count == |Workers(Do(h, a, max))| <==> InStep(h, a)
  {
    ActWorkers(h, a, max);
    assert !a.Create? ==> (a.id in Workers(h) <==> h.conns[a.id]);
    hide Workers;
    if a.Destroy? && !h.conns[a.id] {
      assert Workers(h) - {a.id} == Workers(h);
    }
  }

  /** Throughout a run the count is the number of workers, exactly if every act changes both alike. */
  lemma CountIsWorkersExactly(max: int, hosts: seq<Host>, acts: seq<Act>)
    requires IsRun(max, hosts, acts)
    ensures (forall i :: 0 <= i < |hosts| ==> hosts[i].count == |Workers(hosts[i])|)
       <==> (forall i :: 0 <= i < |acts| ==> InStep(hosts[i], acts[i]))
  {
    hide InStep, Do, Possible;
    if forall i :: 0 <= i < |hosts| ==> hosts[i].count == |Workers(hosts[i])| {
      forall i | 0 <= i < |acts|
        ensures InStep(hosts[i], acts[i])
      {
        assert hosts[i + 1].count == |Workers(hosts[i + 1])|;
        ActInStep(hosts[i], acts[i], max);
      }
    }
    if forall i :: 0 <= i < |acts| ==> InStep(hosts[i], acts[i]) {
      CountIsWorkers(max, hosts, acts, |acts|);
    }
  }

  lemma {:induction false} CountIsWorkers(max: int, hosts: seq<Host>, acts: seq<Act>, n: nat)
    requires IsRun(max, hosts, acts) && n <= |acts|
    requires forall i :: 0 <= i < |acts| ==> InStep(hosts[i], acts[i])
    ensures forall i :: 0 <= i <= n ==> hosts[i].count == |Workers(hosts[i])|
  {
    hide InStep, Do, Possible;
    if n == 0 {
      NoWorkers();
    } else {
      CountIsWorkers(max, hosts, acts, n - 1);
      ActInStep(hosts[n - 1], acts[n - 1], max);
    }
  }

  lemma NoWorkers()
    ensures Workers(Host(0, map[], 0)) == {}
  {
  }

  /* ---------- when the limit can be passed ---------- */

  /** By how many the workers exceed the count, apart from other connections destroyed. */
  ghost function Excess(h: Host): int {
    |Workers(h)| - h.count - h.othersDestroyed
  }

  lemma ActExcess(h: Host, a: Act, max: int)
    requires Possible(h, a) && 0 <= h.count <= max
    ensures Excess(Do(h, a, max)) <= Excess(h) && 0 <= Do(h, a, max).count <= max
  {
    ActWorkers(h, a, max);
    assert a.Destroy? ==> (a.id in Workers(h) <==> h.conns[a.id]);
    hide Workers;
  }

  lemma {:induction false} ExcessFalls(max: int, h: Host, hosts: seq<Host>, acts: seq<Act>)
    requires IsRunFrom(max, h, hosts, acts) && 0 <= h.count <= max
    ensures Excess(hosts[|acts|]) <= Excess(h) && 0 <= hosts[|acts|].count <= max
    decreases |acts|
  {
    if acts != [] {
      var n := |acts| - 1;
      RunPrefix(max, h, hosts, acts);
      hide Excess, Do, Possible;
      ExcessFalls(max, h, hosts[..|acts|], acts[..n]);
      ActExcess(hosts[n], acts[n], max);
    }
  }

  lemma {:induction false} Above(s: set<nat>) returns (b: nat)
    ensures forall x :: x in s ==> x < b
  {
    b := 0;
    if s != {} {
      var x :| x in s;
      var c := Above(s - {x});
      b := if x < c then c else x + 1;
      forall y | y in s
        ensures y < b
      {
        assert y == x || y in s - {x};
      }
    }
  }

  lemma Prepend(max: int, h: Host, a: Act, hosts: seq<Host>, acts: seq<Act>)
    requires Possible(h, a) && IsRunFrom(max, Do(h, a, max), hosts, acts)
    ensures IsRunFrom(max, h, [h] + hosts, [a] + acts) && ([h] + hosts)[|acts| + 1] == hosts[|acts|]
  {
    hide Do, Possible;
  }

  /** As many new clients as the count allows. */
  lemma {:induction false} FillUp(max: int, h: Host) returns (hosts: seq<Host>, acts: seq<Act>)
    requires 0 <= h.count <= max
    ensures IsRunFrom(max, h, hosts, acts) && hosts[|acts|].othersDestroyed == h.othersDestroyed
    ensures |Workers(hosts[|acts|])| == |Workers(h)| + max - h.count
    decreases max - h.count
  {
    hosts, acts := [h], [];
    if h.count < max {
      var id := Above(h.conns.Keys);
      var a, b := Create(id), Syn(id, id + 1);
      var h1 := Do(h, a, max);
      var h2 := Do(h1, b, max);
      ActWorkers(h, a, max);
      ActWorkers(h1, b, max);
      assert id !in Workers(h);
      hosts, acts := FillUp(max, h2);
      hide Workers, IsRunFrom;
      Prepend(max, h1, b, hosts, acts);
      hosts, acts := [h1] + hosts, [b] + acts;
      Prepend(max, h, a, hosts, acts);
      hosts, acts := [h] + hosts, [a] + acts;
    }
  }

  /** Some run from h, in which no connection but workers is destroyed, ends with more workers than the limit. */
  ghost predicate CanPass(max: int, h: Host) {
    exists hosts, acts :: Passes(max, h, hosts, acts)
  }

  ghost predicate Passes(max: int, h: Host, hosts: seq<Host>, acts: seq<Act>) {
    && IsRunFrom(max, h, hosts, acts)
    && hosts[|acts|].othersDestroyed == h.othersDestroyed
    && |Workers(hosts[|acts|])| > max
  }

  /** The limit can be passed from h exactly if there are more workers than the count says. */
  lemma CanPassExactly(max: int, h: Host)
    requires 0 <= h.count <= max
    ensures CanPass(max, h) <==> |Workers(h)| > h.count
  {
    hide IsRunFrom;
    if CanPass(max, h) {
      var hosts, acts :| Passes(max, h, hosts, acts);
      RunLength(max, h, hosts, acts);
      ExcessFalls(max, h, hosts, acts);
    }
    if |Workers(h)| > h.count {
      var hosts, acts := FillUp(max, h);
      RunLength(max, h, hosts, acts);
      assert Passes(max, h, hosts, acts);
    }
  }

  lemma RunLength(max: int, h: Host, hosts: seq<Host>, acts: seq<Act>)
    requires IsRunFrom(max, h, hosts, acts)
    ensures |hosts| == |acts| + 1
  {
  }

  /** Destroying a listening connection frees a place that it did not take: with a limit of 1, two workers. */
  lemma LimitExceeded() returns (hosts: seq<Host>, acts: seq<Act>)
    ensures IsRun(1, hosts, acts) && |Workers(hosts[|acts|])| == 2 && hosts[|acts|].othersDestroyed == 1
  {
    acts := [Create(0), Syn(0, 1), Destroy(1), Create(2), Syn(2, 3)];
    var h0 := Host(0, map[], 0);
    var h1 := Do(h0, acts[0], 1);
    var h2 := Do(h1, acts[1], 1);
    var h3 := Do(h2, acts[2], 1);
    var h4 := Do(h3, acts[3], 1);
    var h5 := Do(h4, acts[4], 1);
    hosts := [h0, h1, h2, h3, h4, h5];
    assert Workers(h5) == {0, 2};
  }
}
