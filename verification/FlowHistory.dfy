/** What the flow records mean: they are told by the packets that have come, and exported in their time. */
module FlowHistory {
  import opened Common
  import opened FlowExporter

  datatype Seen = Seen(time: int, bytes: nat)

  /**
   The packets of one key: those since the last self-message with this key, and those before it; and when the
   messages with this key come that had been left behind when the first of them came.
   */
  datatype History = History(earlier: seq<Seen>, current: seq<Seen>, left: map<nat, int>)

  /** The self-message has this key, and so ends the flow. */
  ghost predicate EndsFlow(x: Exporter, e: Event, k: FlowKey) {
    e.SelfMessage? && e.id in x.pending && x.pending[e.id].key == k
  }

  ghost function Waiting(x: Exporter, k: FlowKey): map<nat, int> {
    map id | id in x.pending && x.pending[id].key == k :: x.pending[id].time
  }

  ghost function More(h: History, x: Exporter, e: Event, k: FlowKey): History {
    if EndsFlow(x, e, k) then History(h.earlier + h.current, [], map[])
    else if e.Packet? && e.key == k then
      History(h.earlier, h.current + [Seen(e.time, e.bytes)], if h.current == [] then Waiting(x, k) else h.left)
    else h
  }

  ghost function HistoryOf(states: seq<Exporter>, events: seq<Event>, k: FlowKey): History
    requires |states| > |events|
    decreases |events|
  {
    if events == [] then History([], [], map[])
    else
      var n := |events| - 1;
      More(HistoryOf(states[..|events|], events[..n], k), states[n], events[n], k)
  }

  function TotalBytes(ps: seq<Seen>): nat {
    if ps == [] then 0 else TotalBytes(ps[..|ps| - 1]) + ps[|ps| - 1].bytes
  }

  function Last(ps: seq<Seen>): Seen
    requires ps != []
  {
    ps[|ps| - 1]
  }

  /** The record of a flow with these packets: from the first to the last, with their number and bytes mod 2^32. */
  ghost predicate Describes(f: Flow, ps: seq<Seen>) {
    && ps != [] && f.start == ps[0].time && f.end == Last(ps).time
    && f.packets == |ps| % UINT && f.bytes == TotalBytes(ps) % UINT
  }

  /** One of the two timeouts, counted from a packet of an earlier flow. */
  ghost predicate Stale(time: int, to: Timeouts, earlier: seq<Seen>) {
    exists i :: 0 <= i < |earlier| && (time == earlier[i].time + to.flow || time == earlier[i].time + to.idle)
  }

  /**
   A message that waits for key k is the idle timeout after the last packet of the flow, the flow timeout
   after the first one, or was left behind by an earlier flow.
   */
  ghost predicate Accounted(x: Exporter, to: Timeouts, k: FlowKey, h: History, id: nat)
    requires id in x.pending
  {
    var time := x.pending[id].time;
    || (k in x.table && id == x.table[k].pointer && h.current != [] && time == Last(h.current).time + to.idle)
    || (h.current != [] && time == h.current[0].time + to.flow)
    || ((h.current == [] || id in h.left) && Stale(time, to, h.earlier))
  }

  /** What was left behind still waits, and is not the message that the flow would cancel. */
  ghost predicate StillLeft(x: Exporter, k: FlowKey, left: map<nat, int>) {
    && (forall id :: id in left ==> id in x.pending && x.pending[id] == Message(left[id], k))
    && (k in x.table ==> x.table[k].pointer !in left)
  }

  ghost predicate Told(x: Exporter, to: Timeouts, k: FlowKey, h: History) {
    && (k in x.table <==> h.current != [])
    && (k in x.table ==> Describes(x.table[k], h.current))
    && StillLeft(x, k, h.left)
    && forall id :: id in x.pending && x.pending[id].key == k ==> Accounted(x, to, k, h, id)
  }

  lemma DescribesMore(f: Flow, ps: seq<Seen>, p: Seen, f': Flow)
    requires Describes(f, ps) && f'.start == f.start && f'.end == p.time
    requires f'.packets == (f.packets + 1) % UINT && f'.bytes == (f.bytes + p.bytes) % UINT
    ensures Describes(f', ps + [p])
  {
    assert (ps + [p])[..|ps|] == ps;
  }

  lemma DescribesTimes(f: Flow, ps: seq<Seen>)
    requires Describes(f, ps)
    ensures ps != [] && f.start == ps[0].time && f.end == Last(ps).time
  {
  }

  lemma DescribesOne(f: Flow, p: Seen)
    requires f.start == f.end == p.time && f.packets == 1 && f.bytes == p.bytes % UINT
    ensures Describes(f, [] + [p])
  {
    assert ([] + [p])[..0] == [];
  }

  lemma StaleMore(time: int, to: Timeouts, earlier: seq<Seen>, current: seq<Seen>)
    ensures Stale(time, to, earlier) ==> Stale(time, to, earlier + current)
    ensures current != [] && (time == current[0].time + to.flow || time == Last(current).time + to.idle) ==>
      Stale(time, to, earlier + current)
  {
    var all := earlier + current;
    if Stale(time, to, earlier) {
      var i :| 0 <= i < |earlier| && (time == earlier[i].time + to.flow || time == earlier[i].time + to.idle);
      assert all[i] == earlier[i];
    }
    if current != [] {
      assert all[|earlier|] == current[0] && all[|all| - 1] == Last(current);
    }
  }

  lemma OwnKnownPacket(x: Exporter, to: Timeouts, e: Event, h: History)
    requires Inv(x, to) && Enabled(x, e) && e.Packet? && e.key in x.table && Told(x, to, e.key, h)
    ensures Told(Apply(x, to, e), to, e.key, More(h, x, e, e.key))
  {
    var k, x', h' := e.key, Apply(x, to, e), More(h, x, e, e.key);
    DescribesMore(x.table[k], h.current, Seen(e.time, e.bytes), x'.table[k]);
    hide Describes, Stale;
    forall id | id in x'.pending && x'.pending[id].key == k
      ensures Accounted(x', to, k, h', id)
    {
      if id != x.nextId {
        assert id in x.pending && id != x.table[k].pointer && Accounted(x, to, k, h, id);
      }
    }
  }

  lemma OwnNewPacket(x: Exporter, to: Timeouts, e: Event, h: History)
    requires Inv(x, to) && Enabled(x, e) && e.Packet? && e.key !in x.table && Told(x, to, e.key, h)
    ensures Told(Apply(x, to, e), to, e.key, More(h, x, e, e.key))
  {
    var k, x', h' := e.key, Apply(x, to, e), More(h, x, e, e.key);
    DescribesOne(x'.table[k], Seen(e.time, e.bytes));
    hide Describes, Stale;
    forall id | id in x'.pending && x'.pending[id].key == k
      ensures Accounted(x', to, k, h', id)
    {
      if id in x.pending {
        assert Accounted(x, to, k, h, id);
      }
    }
  }

  lemma OtherPacket(x: Exporter, to: Timeouts, e: Event, k: FlowKey, h: History)
    requires Inv(x, to) && Enabled(x, e) && e.Packet? && e.key != k && Told(x, to, k, h)
    ensures Told(Apply(x, to, e), to, k, h)
  {
    var x' := Apply(x, to, e);
    hide Describes, Stale;
    forall id | id in x'.pending && x'.pending[id].key == k
      ensures Accounted(x', to, k, h, id)
    {
      assert Accounted(x, to, k, h, id);
    }
  }

  lemma OwnMessage(x: Exporter, to: Timeouts, e: Event, k: FlowKey, h: History)
    requires Enabled(x, e) && EndsFlow(x, e, k) && Told(x, to, k, h)
    ensures Told(Apply(x, to, e), to, k, More(h, x, e, k))
  {
    var x', h' := Apply(x, to, e), More(h, x, e, k);
    hide Describes, Stale;
    forall id | id in x'.pending && x'.pending[id].key == k
      ensures Accounted(x', to, k, h', id)
    {
      assert Accounted(x, to, k, h, id);
      StaleMore(x.pending[id].time, to, h.earlier, h.current);
    }
  }

  lemma OtherMessage(x: Exporter, to: Timeouts, e: Event, k: FlowKey, h: History)
    requires Enabled(x, e) && e.SelfMessage? && !EndsFlow(x, e, k) && Told(x, to, k, h)
    ensures Told(Apply(x, to, e), to, k, h)
  {
    var x' := Apply(x, to, e);
    hide Describes, Stale;
    forall id | id in x'.pending && x'.pending[id].key == k
      ensures Accounted(x', to, k, h, id)
    {
      assert Accounted(x, to, k, h, id);
    }
  }

  lemma EventTells(x: Exporter, to: Timeouts, e: Event, k: FlowKey, h: History)
    requires Inv(x, to) && Enabled(x, e) && Told(x, to, k, h)
    ensures Told(Apply(x, to, e), to, k, More(h, x, e, k))
  {
    hide Inv, Apply, Enabled, Told;
    if e.Packet? {
      if e.key != k {
        OtherPacket(x, to, e, k, h);
      } else if k in x.table {
        OwnKnownPacket(x, to, e, h);
      } else {
        OwnNewPacket(x, to, e, h);
      }
    } else if EndsFlow(x, e, k) {
      OwnMessage(x, to, e, k, h);
    } else {
      OtherMessage(x, to, e, k, h);
    }
  }

  /** In every run, the live flows and what waits for them are told by the packets that have come. */
  lemma {:induction false} RunTells(to: Timeouts, states: seq<Exporter>, events: seq<Event>, k: FlowKey)
    requires IsRun(to, states, events)
    ensures Told(states[|events|], to, k, HistoryOf(states, events, k))
    decreases |events|
  {
    if events != [] {
      var n := |events| - 1;
      RunPrefix(to, states, events);
      var before, es := states[..|events|], events[..n];
      RunKeeps(to, before, es);
      RunTells(to, before, es, k);
      assert before[n] == states[n];
      hide Inv, Apply, Enabled, Told, IsRun, More;
      EventTells(states[n], to, events[n], k, HistoryOf(before, es, k));
    }
  }

  /**
   A key has a live flow exactly if a packet has come since the last self-message with this key. The record then
   describes these packets, and no more than either timeout has passed since the last or the first of them.
   */
  lemma LiveFlows(to: Timeouts, states: seq<Exporter>, events: seq<Event>, k: FlowKey)
    requires IsRun(to, states, events)
    ensures var x, ps := states[|events|], HistoryOf(states, events, k).current;
      && (k in x.table <==> ps != [])
      && (ps != [] ==> Describes(x.table[k], ps) && x.now <= ps[0].time + to.flow && x.now <= Last(ps).time + to.idle)
  {
    RunTells(to, states, events, k);
    RunKeeps(to, states, events);
    hide IsRun, Inv;
    if k in states[|events|].table {
      var id := FlowIsDue(states[|events|], to, k);
    }
  }

  /* ---------- what is exported, and when ---------- */

  function Min(a: int, b: int): int {
    if a < b then a else b
  }

  /** From x to x' the flow with the history h ends: what is exported, and when. */
  ghost predicate Ended(x: Exporter, x': Exporter, to: Timeouts, h: History) {
    if h.current == [] then x'.exported == x.exported
    else
      var due := Min(h.current[0].time + to.flow, Last(h.current).time + to.idle);
      && |x'.exported| == |x.exported| + 1 && x'.exported[..|x.exported|] == x.exported
      && Describes(x'.exported[|x.exported|], h.current)
      && x'.now <= due && (x'.now < due ==> Stale(x'.now, to, h.earlier))
      && (x'.now == due <==> forall id :: id in h.left ==> h.left[id] >= due)
  }

  lemma ExportDue(x: Exporter, to: Timeouts, id: nat, h: History)
    requires Inv(x, to) && Enabled(x, SelfMessage(id)) && Told(x, to, x.pending[id].key, h)
    ensures Ended(x, OnMessage(x, id), to, h)
  {
    hide Stale, Describes;
    if h.current != [] {
      var k := x.pending[id].key;
      var time, due := x.pending[id].time, Min(h.current[0].time + to.flow, Last(h.current).time + to.idle);
      var next := FlowIsDue(x, to, k);
      hide Inv;
      DescribesTimes(x.table[k], h.current);
      assert time <= x.pending[next].time <= due;
      assert Accounted(x, to, k, h, id);
      assert time < due ==> id in h.left && h.left[id] == time;
      assert forall i :: i in h.left ==> h.left[i] == x.pending[i].time >= time;
      var exported := OnMessage(x, id).exported;
      assert exported[..|x.exported|] == x.exported && exported[|x.exported|] == x.table[k];
    }
  }

  /**
   A self-message exports the record of exactly the packets of its key since the last one, if there are any. It
   never comes after the first of both timeouts; and it comes just then, exactly if no message left behind by an
   earlier flow comes before.
   */
  lemma ExportedFlows(to: Timeouts, states: seq<Exporter>, events: seq<Event>, i: nat)
    requires IsRun(to, states, events) && i < |events|
    ensures var x, x' := states[i], states[i + 1];
      match events[i]
      case Packet(_, _, _) => x'.exported == x.exported
      case SelfMessage(id) =>
        && id in x.pending && x'.now == x.pending[id].time
        && Ended(x, x', to, HistoryOf(states[..i + 1], events[..i], x.pending[id].key))
  {
    var x, e := states[i], events[i];
    assert Enabled(x, e) && states[i + 1] == Apply(x, to, e);
    var before, es := states[..i + 1], events[..i];
    assert IsRun(to, before, es) && before[i] == x;
    hide IsRun;
    if e.SelfMessage? {
      var k := x.pending[e.id].key;
      RunTells(to, before, es, k);
      RunKeeps(to, before, es);
      hide Inv, HistoryOf, Told, Ended;
      ExportDue(x, to, e.id, HistoryOf(before, es, k));
    }
  }

  /** With timeouts of 15 and 10: a flow that begins at 12 is exported at 15, by the message of one that began at 0. */
  lemma EarlyExport(k: FlowKey) returns (states: seq<Exporter>, events: seq<Event>)
    ensures IsRun(Timeouts(15, 10), states, events)
    ensures var x := states[|events|];
      x.now == 15 && x.exported != [] && x.exported[|x.exported| - 1].start == x.exported[|x.exported| - 1].end == 12
  {
    var to := Timeouts(15, 10);
    events := [Packet(0, k, 1), SelfMessage(1), Packet(12, k, 1), SelfMessage(0)];
    var x1 := OnPacket(EMPTY, to, 0, k, 1);
    assert Enabled(EMPTY, events[0]) && x1.pending == map[0 := Message(15, k), 1 := Message(10, k)];
    var x2 := OnMessage(x1, 1);
    assert Enabled(x1, events[1]) && x2.pending == map[0 := Message(15, k)] && k !in x2.table;
    var x3 := OnPacket(x2, to, 12, k, 1);
    assert Enabled(x2, events[2]) && x3.pending[0] == Message(15, k) && x3.table[k].start == x3.table[k].end == 12;
    assert x3.pending == map[0 := Message(15, k), 2 := Message(27, k), 3 := Message(22, k)];
    var x4 := OnMessage(x3, 0);
    assert Enabled(x3, events[3]) && x4.exported == x3.exported + [x3.table[k]];
    states := [EMPTY, x1, x2, x3, x4];
  }
}
