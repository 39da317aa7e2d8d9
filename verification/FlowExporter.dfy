/**
 Flow records with an idle and an absolute timeout. A self-message named after the flow's key
 exports and erases whatever flow has that key when it arrives. The table is shared by all exporter
 modules of a program, so this is all of them together.
 */
module FlowExporter {
  import opened Common
  import opened MapSum

  /** Source address, destination address and protocol. */
  type FlowKey = string

  /** pointer names the expiry message that was scheduled last. */
  datatype Flow = Flow(start: int, end: int, packets: nat, bytes: nat, pointer: nat)

  datatype Message = Message(time: int, key: FlowKey)

  /** pending holds the scheduled self-messages, fired the identities of those that arrived and were deleted. */
  datatype Exporter = Exporter(table: map<FlowKey, Flow>, pending: map<nat, Message>, fired: set<nat>, nextId: nat,
                               now: int, exported: seq<Flow>)

  const EMPTY := Exporter(map[], map[], {}, 0, 0, [])

  datatype Timeouts = Timeouts(flow: nat, idle: nat)

  /* ---------- the events ---------- */

  function OnPacket(x: Exporter, to: Timeouts, t: int, k: FlowKey, bytes: nat): Exporter {
    if k in x.table then
      var was := x.table[k];
      var f := was.(packets := (was.packets + 1) % UINT, bytes := (was.bytes + bytes) % UINT, end := t);
      var left := x.pending - {f.pointer};
      if f.start + to.flow > t + to.idle then
        x.(now := t, table := x.table[k := f.(pointer := x.nextId)],
           pending := left[x.nextId := Message(t + to.idle, k)], nextId := x.nextId + 1)
      else x.(now := t, table := x.table[k := f], pending := left)
    else
      x.(now := t, table := x.table[k := Flow(t, t, 1, bytes % UINT, x.nextId + 1)],
         pending := x.pending[x.nextId := Message(t + to.flow, k)][x.nextId + 1 := Message(t + to.idle, k)],
         nextId := x.nextId + 2)
  }

  function OnMessage(x: Exporter, id: nat): Exporter
    requires id in x.pending
  {
    var m := x.pending[id];
    var x' := x.(now := m.time, pending := x.pending - {id}, fired := x.fired + {id});
    if m.key in x.table then x'.(table := x.table - {m.key}, exported := x.exported + [x.table[m.key]]) else x'
  }

  datatype Event = Packet(time: int, key: FlowKey, bytes: nat) | SelfMessage(id: nat)

  /** Events come in the order of their times. */
  ghost predicate Enabled(x: Exporter, e: Event) {
    match e
    case Packet(t, _, _) => x.now <= t && forall id :: id in x.pending ==> t <= x.pending[id].time
    case SelfMessage(id) => id in x.pending && forall id' :: id' in x.pending ==>
      x.pending[id].time <= x.pending[id'].time
  }

  ghost function Apply(x: Exporter, to: Timeouts, e: Event): Exporter
    requires Enabled(x, e)
  {
    match e
    case Packet(t, k, b) => OnPacket(x, to, t, k, b)
    case SelfMessage(id) => OnMessage(x, id)
  }

  /* ---------- the invariant ---------- */

  /** A message other than the pointer ends the flow by its absolute timeout. */
  ghost predicate HasTimeout(x: Exporter, to: Timeouts, k: FlowKey)
    requires k in x.table
  {
    exists id :: id in x.pending && id != x.table[k].pointer && x.pending[id].key == k
      && x.pending[id].time <= x.table[k].start + to.flow
  }

  ghost predicate FlowOk(x: Exporter, to: Timeouts, k: FlowKey)
    requires k in x.table
  {
    var f := x.table[k];
    && f.start <= f.end <= x.now
    && f.pointer < x.nextId && f.pointer !in x.fired
    && (f.pointer in x.pending ==> x.pending[f.pointer].key == k)
    && (f.start + to.flow > f.end + to.idle ==> f.pointer in x.pending && x.pending[f.pointer].time == f.end + to.idle)
    && HasTimeout(x, to, k)
  }

  ghost predicate Inv(x: Exporter, to: Timeouts) {
    && (forall id :: id in x.pending ==> id < x.nextId && id !in x.fired && x.now <= x.pending[id].time)
    && (forall id :: id in x.fired ==> id < x.nextId)
    && (forall k :: k in x.table ==> FlowOk(x, to, k))
  }

  /**
   Every live flow has a message no later than both of its timeouts, and so is gone when the first of
   them has passed.
   */
  lemma FlowIsDue(x: Exporter, to: Timeouts, k: FlowKey) returns (id: nat)
    requires Inv(x, to) && k in x.table
    ensures var f := x.table[k];
      && id in x.pending && x.pending[id].key == k
      && x.pending[id].time <= f.start + to.flow && x.pending[id].time <= f.end + to.idle
      && x.now <= f.start + to.flow && x.now <= f.end + to.idle
  {
    var f := x.table[k];
    assert FlowOk(x, to, k);
    if f.start + to.flow > f.end + to.idle {
      id := f.pointer;
    } else {
      id :| id in x.pending && id != f.pointer && x.pending[id].key == k && x.pending[id].time <= f.start + to.flow;
    }
  }

  /** The message that a flow points to has not been deleted. */
  lemma PointersAlive(x: Exporter, to: Timeouts)
    requires Inv(x, to)
    ensures forall k :: k in x.table ==> x.table[k].pointer !in x.fired
  {
    assert forall k :: k in x.table ==> FlowOk(x, to, k);
  }

  lemma KnownPacketKeeps(x: Exporter, to: Timeouts, t: int, k: FlowKey, bytes: nat)
    requires Inv(x, to) && Enabled(x, Packet(t, k, bytes)) && k in x.table
    ensures Inv(OnPacket(x, to, t, k, bytes), to)
  {
    var x' := OnPacket(x, to, t, k, bytes);
    forall k' | k' in x'.table
      ensures FlowOk(x', to, k')
    {
      assert FlowOk(x, to, k') && FlowOk(x, to, k);
      var f' := x.table[k'];
      var id :| id in x.pending && id != f'.pointer && x.pending[id].key == k'
        && x.pending[id].time <= f'.start + to.flow;
      assert id in x'.pending && x'.pending[id] == x.pending[id];
    }
  }

  lemma NewPacketKeeps(x: Exporter, to: Timeouts, t: int, k: FlowKey, bytes: nat)
    requires Inv(x, to) && Enabled(x, Packet(t, k, bytes)) && k !in x.table
    ensures Inv(OnPacket(x, to, t, k, bytes), to)
  {
    var x' := OnPacket(x, to, t, k, bytes);
    forall k' | k' in x'.table
      ensures FlowOk(x', to, k')
    {
      if k' == k {
        assert x.nextId in x'.pending;
      } else {
        assert FlowOk(x, to, k');
        var f' := x.table[k'];
        var id :| id in x.pending && id != f'.pointer && x.pending[id].key == k'
          && x.pending[id].time <= f'.start + to.flow;
        assert id in x'.pending && x'.pending[id] == x.pending[id];
      }
    }
  }

  lemma MessageKeeps(x: Exporter, to: Timeouts, id: nat)
    requires Inv(x, to) && Enabled(x, SelfMessage(id))
    ensures Inv(OnMessage(x, id), to)
  {
    var x' := OnMessage(x, id);
    forall k | k in x'.table
      ensures FlowOk(x', to, k)
    {
      assert FlowOk(x, to, k);
      var f := x.table[k];
      var i :| i in x.pending && i != f.pointer && x.pending[i].key == k && x.pending[i].time <= f.start + to.flow;
      assert i in x'.pending;
    }
  }

  lemma EventKeeps(x: Exporter, to: Timeouts, e: Event)
    requires Inv(x, to) && Enabled(x, e)
    ensures Inv(Apply(x, to, e), to)
  {
    hide Inv, OnPacket, OnMessage;
    match e
    case Packet(t, k, b) =>
      if k in x.table {
        KnownPacketKeeps(x, to, t, k, b);
      } else {
        NewPacketKeeps(x, to, t, k, b);
      }
    case SelfMessage(id) => MessageKeeps(x, to, id);
  }

  /* ---------- conservation ---------- */

  datatype Quantity = Packets | Bytes

  function Weight(q: Quantity): Flow -> nat {
    match q case Packets => (f: Flow) => f.packets case Bytes => (f: Flow) => f.bytes
  }

  ghost function SumOf(fs: seq<Flow>, q: Quantity): nat {
    if fs == [] then 0 else SumOf(fs[..|fs| - 1], q) + Weight(q)(fs[|fs| - 1])
  }

  /** Over the live and the exported flows together. */
  ghost function Counted(x: Exporter, q: Quantity): nat {
    Sum(x.table, Weight(q)) + SumOf(x.exported, q)
  }

  function Brought(e: Event, q: Quantity): nat {
    if e.SelfMessage? then 0 else match q case Packets => 1 case Bytes => e.bytes
  }

  function BroughtBy(es: seq<Event>, q: Quantity): nat {
    if es == [] then 0 else BroughtBy(es[..|es| - 1], q) + Brought(es[|es| - 1], q)
  }

  /** The event is a packet that makes the counter of its flow wrap around. */
  predicate WrapsAt(x: Exporter, e: Event, q: Quantity) {
    e.Packet? && (if e.key in x.table then Weight(q)(x.table[e.key]) else 0) + Brought(e, q) >= UINT
  }

  lemma EventCounts(x: Exporter, to: Timeouts, e: Event, q: Quantity) returns (wraps: nat)
    requires Enabled(x, e)
    ensures Unwrapped(Counted(Apply(x, to, e), q), wraps, UINT) == Counted(x, q) + Brought(e, q)
    ensures wraps == 0 <==> !WrapsAt(x, e, q)
  {
    hide Sum;
    match e
    case Packet(t, k, b) =>
      var f' := OnPacket(x, to, t, k, b).table[k];
      var was := if k in x.table then Weight(q)(x.table[k]) else 0;
      SumUpdate(x.table, Weight(q), k, f');
      wraps := (was + Brought(e, q)) / UINT;
      assert Weight(q)(f') == (was + Brought(e, q)) % UINT;
    case SelfMessage(id) =>
      wraps := 0;
      var k := x.pending[id].key;
      if k in x.table {
        SumSplit(x.table, Weight(q), k);
        assert (x.exported + [x.table[k]])[..|x.exported|] == x.exported;
      }
  }

  /* ---------- whole runs ---------- */

  ghost predicate IsRun(to: Timeouts, states: seq<Exporter>, events: seq<Event>) {
    && |states| == |events| + 1 && states[0] == EMPTY
    && forall i :: 0 <= i < |events| ==>
         Enabled(states[i], events[i]) && states[i + 1] == Apply(states[i], to, events[i])
  }

  lemma {:induction false} RunKeeps(to: Timeouts, states: seq<Exporter>, events: seq<Event>)
    requires IsRun(to, states, events)
    ensures Inv(states[|events|], to)
    decreases |events|
  {
    if events != [] {
      var n := |events| - 1;
      hide Inv, Apply, Enabled;
      RunKeeps(to, states[..|events|], events[..n]);
      EventKeeps(states[n], to, events[n]);
    }
  }

  lemma RunPrefix(to: Timeouts, states: seq<Exporter>, events: seq<Event>)
    requires IsRun(to, states, events)
    ensures |states| == |events| + 1 && states[0] == EMPTY
    ensures events != [] ==>
      var n := |events| - 1;
      IsRun(to, states[..|events|], events[..n]) && Enabled(states[n], events[n])
        && states[n + 1] == Apply(states[n], to, events[n])
  {
    hide Enabled, Apply;
  }

  /** No packet of the run makes the counter of its own flow wrap around. */
  ghost predicate NoneWraps(states: seq<Exporter>, events: seq<Event>, q: Quantity)
    requires |states| > |events|
  {
    forall i :: 0 <= i < |events| ==> !WrapsAt(states[i], events[i], q)
  }

  lemma NoneWrapsPrefix(states: seq<Exporter>, events: seq<Event>, q: Quantity)
    requires |states| > |events| > 0
    ensures var n := |events| - 1;
      NoneWraps(states, events, q) <==>
        NoneWraps(states[..|events|], events[..n], q) && !WrapsAt(states[n], events[n], q)
  {
    hide WrapsAt;
    var n := |events| - 1;
    var before, es := states[..|events|], events[..n];
    assert forall i :: 0 <= i < n ==> before[i] == states[i] && es[i] == events[i];
  }

  /**
   Exported and live flows together account for every packet and byte processed, up to 32-bit
   wrap-around; and there is none exactly if no packet makes the counter of its own flow wrap around.
   */
  lemma {:induction false} RunCounts(to: Timeouts, states: seq<Exporter>, events: seq<Event>, q: Quantity)
    returns (wraps: nat)
    requires IsRun(to, states, events)
    ensures Unwrapped(Counted(states[|events|], q), wraps, UINT) == BroughtBy(events, q)
    ensures wraps == 0 <==> NoneWraps(states, events, q)
    decreases |events|
  {
    if events == [] {
      wraps := 0;
      assert NoneWraps(states, events, q) && Counted(EMPTY, q) == 0;
    } else {
      var n := |events| - 1;
      RunPrefix(to, states, events);
      NoneWrapsPrefix(states, events, q);
      hide Counted, Apply, Enabled, Brought, IsRun, NoneWraps, WrapsAt, Unwrapped;
      var before := RunCounts(to, states[..|events|], events[..n], q);
      var more := EventCounts(states[n], to, events[n], q);
      wraps := Accumulated(UINT, 0, BroughtBy(events[..n], q), Counted(states[n], q), before,
                           Brought(events[n], q), Counted(states[n + 1], q), more);
      assert wraps == 0 <==> NoneWraps(states, events, q);
    }
  }

  /** The counts are exact if and only if no counter wraps around. */
  lemma RunCountsExactly(to: Timeouts, states: seq<Exporter>, events: seq<Event>, q: Quantity)
    requires IsRun(to, states, events)
    ensures Counted(states[|events|], q) == BroughtBy(events, q) <==> NoneWraps(states, events, q)
  {
    hide Counted, BroughtBy, NoneWraps;
    var wraps := RunCounts(to, states, events, q);
    assert wraps > 0 ==> wraps * UINT >= UINT;
  }

  lemma OneWraps(states: seq<Exporter>, events: seq<Event>, q: Quantity, i: nat)
    requires |states| > |events| > i && WrapsAt(states[i], events[i], q)
    ensures !NoneWraps(states, events, q)
  {
    hide WrapsAt;
  }

  /** Two packets of one flow that bring 2^32 bytes together: the live flow counts none of them. */
  lemma BytesWrapAround(k: FlowKey, to: Timeouts) returns (states: seq<Exporter>, events: seq<Event>)
    ensures IsRun(to, states, events)
    ensures BroughtBy(events, Bytes) == UINT && Counted(states[|events|], Bytes) == 0
  {
    var p, q := Packet(0, k, UINT - 1), Packet(0, k, 1);
    var x1 := OnPacket(EMPTY, to, 0, k, UINT - 1);
    var x2 := OnPacket(x1, to, 0, k, 1);
    states, events := [EMPTY, x1, x2], [p, q];
    assert Apply(EMPTY, to, p) == x1 && Enabled(x1, q) && Apply(x1, to, q) == x2;
    assert events[..1] == [p] && [p][..0] == [];
    assert BroughtBy([p], Bytes) == UINT - 1;
    assert BroughtBy(events, Bytes) == UINT && WrapsAt(states[1], events[1], Bytes) && IsRun(to, states, events);
    hide *;
    var wraps := RunCounts(to, states, events, Bytes);
    OneWraps(states, events, Bytes, 1);
    OnceAround(Counted(states[|events|], Bytes), wraps, UINT);
  }

  /** No live flow outlasts either timeout, in any run. */
  lemma NoFlowOverstays(to: Timeouts, states: seq<Exporter>, events: seq<Event>, k: FlowKey) returns (id: nat)
    requires IsRun(to, states, events) && k in states[|events|].table
    ensures var x := states[|events|]; var f := x.table[k];
      && id in x.pending && x.pending[id].key == k
      && x.now <= x.pending[id].time
      && x.pending[id].time <= f.start + to.flow && x.pending[id].time <= f.end + to.idle
  {
    RunKeeps(to, states, events);
    id := FlowIsDue(states[|events|], to, k);
  }

  /* ---------- the module ---------- */

  class FlowExporterModule {
    var table: map<FlowKey, Flow>
    var pending: map<nat, Message>
    ghost var fired: set<nat>
    var nextId: nat
    var now: int
    var exported: seq<Flow>
    var flowTimeout: int
    var idleTimeout: int

    ghost function State(): Exporter
      reads this
    {
      Exporter(table, pending, fired, nextId, now, exported)
    }

    ghost predicate Active()
      reads this
    {
      flowTimeout >= 0 && idleTimeout >= 0
    }

    ghost function Limits(): Timeouts
      requires Active()
      reads this
    {
      Timeouts(flowTimeout, idleTimeout)
    }

    constructor ()
      ensures State() == EMPTY && flowTimeout == -1 && idleTimeout == -1
    {
      table, pending, fired, nextId, now, exported := map[], map[], {}, 0, 0, [];
      flowTimeout, idleTimeout := -1, -1;
    }

    method SetTimeouts(newFlowTimeout: int, newIdleTimeout: int)
      modifies this`flowTimeout, this`idleTimeout
      ensures flowTimeout == newFlowTimeout && idleTimeout == newIdleTimeout
    {
      flowTimeout, idleTimeout := newFlowTimeout, newIdleTimeout;
    }

    method ScheduleAt(t: int, k: FlowKey) returns (id: nat)
      modifies this`pending, this`nextId
      ensures id == old(nextId) && nextId == id + 1 && pending == old(pending)[id := Message(t, k)]
    {
      id := nextId;
      nextId := nextId + 1;
      pending := pending[id := Message(t, k)];
    }

    /** A message that was deleted may not be cancelled; cancelling one that is not scheduled does nothing. */
    method CancelEvent(id: nat)
      requires id !in fired
      modifies this`pending
      ensures pending == old(pending) - {id}
    {
      pending := pending - {id};
    }

    /** A packet arrives at time t. While a timeout is unset the exporter does nothing. */
    method HandlePacket(t: int, k: FlowKey, bytes: nat)
      requires Active() || flowTimeout == -1 || idleTimeout == -1
      requires Active() ==> Inv(State(), Limits()) && Enabled(State(), Packet(t, k, bytes))
      modifies this`table, this`pending, this`nextId, this`now
      ensures if Active() then Inv(State(), Limits()) && State() == OnPacket(old(State()), Limits(), t, k, bytes)
              else State() == old(State()).(now := t)
    {
      hide Inv, Enabled;
      if Active() {
        EventKeeps(State(), Limits(), Packet(t, k, bytes));
        PointersAlive(State(), Limits());
      }
      now := t;
      if idleTimeout != -1 && flowTimeout != -1 {
        if k in table {
          var f := table[k];
          CancelEvent(f.pointer);
          f := f.(packets := (f.packets + 1) % UINT);
          f := f.(bytes := (f.bytes + bytes) % UINT);
          f := f.(end := t);
          if f.start + flowTimeout > t + idleTimeout {
            var expiry := ScheduleAt(t + idleTimeout, k);
            f := f.(pointer := expiry);
          }
          table := table[k := f];
        } else {
          var timeout := ScheduleAt(t + flowTimeout, k);
          var expiry := ScheduleAt(t + idleTimeout, k);
          table := table[k := Flow(t, t, 1, bytes % UINT, expiry)];
        }
      }
    }

    method HandleSelfMessage(id: nat)
      requires Active() && Inv(State(), Limits()) && Enabled(State(), SelfMessage(id))
      modifies this
      ensures flowTimeout == old(flowTimeout) && idleTimeout == old(idleTimeout)
      ensures Inv(State(), Limits()) && State() == OnMessage(old(State()), id)
    {
      MessageKeeps(State(), Limits(), id);
      var m := pending[id];
      now, pending := m.time, pending - {id};
      if m.key in table {
        exported := exported + [table[m.key]];
        table := table - {m.key};
      }
      fired := fired + {id};
    }
  }

  /** A module with fixed timeouts that gets the events of a run, each in its time, goes through its states. */
  method Run(flow: nat, idle: nat, events: seq<Event>,
             ghost states: seq<Exporter>) returns (exporter: FlowExporterModule)
    requires IsRun(Timeouts(flow, idle), states, events)
    ensures exporter.State() == states[|events|] && Inv(states[|events|], Timeouts(flow, idle))
  {
    ghost var to := Timeouts(flow, idle);
    exporter := new FlowExporterModule();
    exporter.SetTimeouts(flow, idle);
    hide Inv, OnPacket, OnMessage, Enabled;
    NothingYet(to);
    for i := 0 to |events|
      invariant fresh(exporter) && exporter.flowTimeout == flow && exporter.idleTimeout == idle
      invariant exporter.State() == states[i] && Inv(states[i], to)
    {
      assert Enabled(states[i], events[i]) && states[i + 1] == Apply(states[i], to, events[i]);
      match events[i] {
        case Packet(t, k, bytes) => exporter.HandlePacket(t, k, bytes);
        case SelfMessage(id) => exporter.HandleSelfMessage(id);
      }
    }
  }

  lemma NothingYet(to: Timeouts)
    ensures Inv(EMPTY, to)
  {
  }
}
