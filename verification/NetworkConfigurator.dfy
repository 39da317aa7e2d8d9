/** Addresses and static routes of a network of autonomous systems (AS). */
module NetworkConfigurator {
  import opened Common

  /* ---------- addresses ---------- */

  const NET: nat := 0x1_0000

  function Wrap(n: nat): nat {
    n % UINT
  }

  /** The address shifted right and then left by 16. */
  function Prefix(addr: nat): nat {
    Wrap((addr / NET) * NET)
  }

  /**
   The size checks: fewer than 65535 AS, as many as announced (one network if none was), at most 65535
   nodes in each.
   */
  predicate Accepted(noAS: int, sizes: seq<nat>) {
    && noAS < 65535
    && |sizes| == (if noAS > 0 then noAS else if noAS == 0 then 1 else 0)
    && forall i :: 0 <= i < |sizes| ==> sizes[i] <= 0xffff_ffff - 0xffff_0000
  }

  /** A prefix for every AS, counting up from 0.1.0.0. */
  method ExtractTopology(count: nat) returns (nets: seq<nat>)
    requires count < 65535
    ensures |nets| == count && forall i :: 0 <= i < count ==> nets[i] == (i + 1) * NET
  {
    nets := [];
    var netIP := NET;
    for i := 0 to count
      invariant |nets| == i && netIP == (i + 1) * NET
      invariant forall j :: 0 <= j < i ==> nets[j] == (j + 1) * NET
    {
      nets := nets + [netIP];
      netIP := Wrap(netIP + NET);
    }
  }

  /** Addresses of the nodes of one AS, counting up from its prefix. */
  method AssignAddresses(net: nat, count: nat) returns (addrs: seq<nat>)
    requires count < NET && net + NET <= UINT
    ensures |addrs| == count && forall j :: 0 <= j < count ==> addrs[j] == net + 1 + j
  {
    addrs := [];
    var currentIP := Wrap(net + 1);
    for j := 0 to count
      invariant |addrs| == j && currentIP == Wrap(net + 1 + j)
      invariant forall i :: 0 <= i < j ==> addrs[i] == net + 1 + i
    {
      addrs := addrs + [currentIP];
      currentIP := Wrap(currentIP + 1);
    }
  }

  /** Address plan: addrs[i][j] is the address of node j of AS i. */
  ghost predicate IsPlan(nets: seq<nat>, addrs: seq<seq<nat>>) {
    && |nets| == |addrs| < 65535
    && (forall i :: 0 <= i < |nets| ==> nets[i] == (i + 1) * NET && |addrs[i]| < NET)
    && (forall i, j :: 0 <= i < |addrs| && 0 <= j < |addrs[i]| ==> addrs[i][j] == nets[i] + 1 + j)
  }

  method Configure(noAS: int, sizes: seq<nat>) returns (r: Option<(seq<nat>, seq<seq<nat>>)>)
    ensures r.Some? <==> Accepted(noAS, sizes)
    ensures r.Some? ==> IsPlan(r.value.0, r.value.1) && |r.value.1| == |sizes|
    ensures r.Some? ==> forall i :: 0 <= i < |sizes| ==> |r.value.1[i]| == sizes[i]
  {
    if noAS >= 65535 || |sizes| != (if noAS > 0 then noAS else if noAS == 0 then 1 else 0) {
      return None;
    }
    var nets := ExtractTopology(|sizes|);
    var addrs: seq<seq<nat>> := [];
    for i := 0 to |sizes|
      invariant |addrs| == i
      invariant forall j :: 0 <= j < i ==> sizes[j] <= 0xffff_ffff - 0xffff_0000
      invariant forall j :: 0 <= j < i ==> |addrs[j]| == sizes[j]
      invariant forall j, k :: 0 <= j < i && 0 <= k < |addrs[j]| ==> addrs[j][k] == nets[j] + 1 + k
    {
      if sizes[i] > 0xffff_ffff - 0xffff_0000 {
        return None;
      }
      var a := AssignAddresses(nets[i], sizes[i]);
      addrs := addrs + [a];
    }
    r := Some((nets, addrs));
  }

  /** No address overflows, and the owning AS prefix can be read off it. */
  lemma PlanPrefix(nets: seq<nat>, addrs: seq<seq<nat>>, i: nat, j: nat)
    requires IsPlan(nets, addrs) && i < |addrs| && j < |addrs[i]|
    ensures addrs[i][j] < UINT && Prefix(addrs[i][j]) == nets[i] == Prefix(nets[i])
  {
    var a := addrs[i][j];
    assert a == nets[i] + 1 + j;
    assert a / NET == i + 1;
  }

  /** Addresses are distinct over all nodes of all AS. */
  lemma PlanDistinct(nets: seq<nat>, addrs: seq<seq<nat>>, i: nat, j: nat, i': nat, j': nat)
    requires IsPlan(nets, addrs) && i < |addrs| && j < |addrs[i]| && i' < |addrs| && j' < |addrs[i']|
    requires addrs[i][j] == addrs[i'][j']
    ensures i == i' && j == j'
  {
    PlanPrefix(nets, addrs, i, j);
    PlanPrefix(nets, addrs, i', j');
  }

  /** The /16 route to AS j matches a node of AS i exactly if they are the same AS. */
  lemma ASRoutesSeparate(nets: seq<nat>, addrs: seq<seq<nat>>, i: nat, j: nat, ie: nat)
    requires IsPlan(nets, addrs) && i < |addrs| && j < |addrs|
    ensures forall k :: 0 <= k < |addrs[i]| ==> (Matches(Route(nets[j], 16, ie), addrs[i][k]) <==> i == j)
  {
    forall k | 0 <= k < |addrs[i]|
      ensures Matches(Route(nets[j], 16, ie), addrs[i][k]) <==> i == j
    {
      PlanPrefix(nets, addrs, i, k);
      assert nets[j] / NET == j + 1;
    }
  }

  /* ---------- the routers of one AS ---------- */

  datatype RouterType = Core | Gateway | Edge | EndSystem

  /** Node v has one interface for each entry of links[v], which leads to that neighbour. */
  datatype Topology = Topology(types: seq<RouterType>, links: seq<seq<nat>>) {
    ghost predicate Valid() {
      |types| == |links| && forall v, i :: 0 <= v < |links| && 0 <= i < |links[v]| ==> links[v][i] < |links|
    }
  }

  /** There is a walk of k hops from v to d. */
  ghost predicate Walk(t: Topology, v: nat, d: nat, k: nat)
    requires t.Valid() && v < |t.links|
    decreases k
  {
    if k == 0 then v == d
    else exists i :: 0 <= i < |t.links[v]| && Walk(t, t.links[v][i], d, k - 1)
  }

  ghost predicate IsDistance(t: Topology, v: nat, d: nat, k: nat)
    requires t.Valid() && v < |t.links|
  {
    Walk(t, v, d, k) && forall j: nat :: j < k ==> !Walk(t, v, d, j)
  }

  ghost predicate Reachable(t: Topology, v: nat, d: nat)
    requires t.Valid() && v < |t.links|
  {
    exists k: nat :: Walk(t, v, d, k)
  }

  /**
   The first hops of the shortest-path computation: hops[d][v] is an interface of v on a shortest path
   to d, if there is one.
   */
  type Hops = seq<seq<Option<nat>>>

  ghost predicate IsHop(t: Topology, v: nat, d: nat, h: Option<nat>)
    requires t.Valid() && v < |t.links|
  {
    && (h.Some? <==> v != d && Reachable(t, v, d))
    && (h.Some? ==> h.value < |t.links[v]| && forall k: nat :: IsDistance(t, v, d, k + 1) ==>
      Walk(t, t.links[v][h.value], d, k))
  }

  ghost predicate ShortestHops(t: Topology, hops: Hops) {
    && t.Valid() && |hops| == |t.links|
    && forall d :: 0 <= d < |hops| ==> |hops[d]| == |t.links| && forall v :: 0 <= v < |t.links| ==>
      IsHop(t, v, d, hops[d][v])
  }

  /* ---------- default routes ---------- */

  function Above(ty: RouterType): RouterType {
    match ty case EndSystem => Edge case Edge => Gateway case _ => Core
  }

  /** The first interface that leads to a router of the next higher level; core routers have no default. */
  method DefaultInterface(t: Topology, v: nat) returns (ie: Option<nat>)
    requires t.Valid() && v < |t.links|
    ensures ie.Some? ==> ie.value < |t.links[v]| && t.types[v] != Core
    ensures ie.Some? ==> t.types[t.links[v][ie.value]] == Above(t.types[v])
    ensures ie.Some? ==> forall i :: 0 <= i < ie.value ==> t.types[t.links[v][i]] != Above(t.types[v])
    ensures ie.None? && t.types[v] != Core ==> forall i :: 0 <= i < |t.links[v]| ==>
      t.types[t.links[v][i]] != Above(t.types[v])
  {
    if t.types[v] == Core {
      return None;
    }
    for i := 0 to |t.links[v]|
      invariant forall j :: 0 <= j < i ==> t.types[t.links[v][j]] != Above(t.types[v])
    {
      if t.types[t.links[v][i]] == Above(t.types[v]) {
        return Some(i);
      }
    }
    ie := None;
  }

  /* ---------- routing tables ---------- */

  /** Packets whose address agrees with host in the first bits bits leave through ie. */
  datatype Route = Route(host: nat, bits: nat, ie: nat)

  /** Netmasks 0.0.0.0, 255.255.0.0 and 255.255.255.255. */
  predicate Matches(r: Route, addr: nat) {
    r.bits == 0 || (r.bits == 16 && Prefix(r.host) == Prefix(addr)) || (r.bits == 32 && r.host == addr)
  }

  /** r is what the lookup may return: a matching route with the longest netmask. */
  predicate IsBest(table: seq<Route>, addr: nat, r: Route) {
    r in table && Matches(r, addr) && forall r' :: r' in table && Matches(r', addr) ==> r'.bits <= r.bits
  }

  ghost predicate IsException(t: Topology, hops: Hops, addrs: seq<nat>, defaults: seq<Option<nat>>, v: nat, d: nat,
                              r: Route)
    requires ShortestHops(t, hops) && |addrs| == |defaults| == |t.links| && v < |t.links|
  {
    && d < |t.links| && d != v
    && t.types[v] != EndSystem
    && hops[d][v].Some? && hops[d][v] != defaults[v]
    && r == Route(addrs[d], 32, hops[d][v].value)
  }

  /** The default routes. */
  method SetDefaultRoutes(defaults: seq<Option<nat>>) returns (tables: seq<seq<Route>>)
    ensures |tables| == |defaults|
    ensures forall v :: 0 <= v < |defaults| ==>
      tables[v] == if defaults[v].Some? then [Route(0, 0, defaults[v].value)] else []
  {
    tables := [];
    for v := 0 to |defaults|
      invariant |tables| == v
      invariant forall u :: 0 <= u < v ==>
        tables[u] == if defaults[u].Some? then [Route(0, 0, defaults[u].value)] else []
    {
      tables := tables + [if defaults[v].Some? then [Route(0, 0, defaults[v].value)] else []];
    }
  }

  /** The table of node v: the default route, and an exception for each destination below n whose first hop differs. */
  ghost predicate IsTable(t: Topology, hops: Hops, addrs: seq<nat>, defaults: seq<Option<nat>>, v: nat,
                          table: seq<Route>, n: nat)
    requires ShortestHops(t, hops) && |addrs| == |defaults| == |t.links| && v < |t.links|
  {
    forall r :: r in table <==>
      || (defaults[v].Some? && r == Route(0, 0, defaults[v].value))
      || exists d: nat :: d < n && IsException(t, hops, addrs, defaults, v, d, r)
  }

  /** Adds the exceptions, destination by destination. */
  method SetIntraASRoutes(t: Topology, hops: Hops, addrs: seq<nat>, defaults: seq<Option<nat>>, before: seq<seq<Route>>)
    returns (tables: seq<seq<Route>>)
    requires ShortestHops(t, hops) && |addrs| == |defaults| == |t.links| == |before|
    requires forall v :: 0 <= v < |defaults| ==>
      before[v] == if defaults[v].Some? then [Route(0, 0, defaults[v].value)] else []
    ensures |tables| == |t.links|
    ensures forall v :: 0 <= v < |tables| ==> IsTable(t, hops, addrs, defaults, v, tables[v], |t.links|)
  {
    tables := before;
    for i := 0 to |t.links|
      invariant |tables| == |t.links|
      invariant forall v :: 0 <= v < |tables| ==> IsTable(t, hops, addrs, defaults, v, tables[v], i)
    {
      for j := 0 to |t.links|
        invariant |tables| == |t.links|
        invariant forall v :: 0 <= v < |tables| ==>
          IsTable(t, hops, addrs, defaults, v, tables[v], if v < j then i + 1 else i)
      {
        if j != i && hops[i][j].Some? && t.types[j] != EndSystem && hops[i][j] != defaults[j] {
          var e := Route(addrs[i], 32, hops[i][j].value);
          assert IsException(t, hops, addrs, defaults, j, i, e);
          tables := tables[j := tables[j] + [e]];
        }
      }
    }
  }

  /* ---------- forwarding ---------- */

  /**
   What the topology must look like: core routers have no default, end systems only one link, which is
   their default.
   */
  ghost predicate Layered(t: Topology, defaults: seq<Option<nat>>)
    requires t.Valid() && |defaults| == |t.links|
  {
    forall v :: 0 <= v < |t.links| ==>
      && (t.types[v] == Core ==> defaults[v].None?)
      && (t.types[v] == EndSystem ==> |t.links[v]| == 1 && defaults[v] == Some(0))
      && (defaults[v].Some? ==> defaults[v].value < |t.links[v]|)
  }

  ghost predicate Distinct(addrs: seq<nat>) {
    forall i, j :: 0 <= i < |addrs| && 0 <= j < |addrs| && addrs[i] == addrs[j] ==> i == j
  }

  /** Routes to other AS, as added to the core routers. */
  ghost predicate Foreign(extra: seq<Route>, addrs: seq<nat>) {
    forall r, i :: r in extra && 0 <= i < |addrs| ==> r.bits == 16 && Prefix(r.host) != Prefix(addrs[i])
  }

  /** The next node of a shortest path is one hop nearer. */
  lemma OneNearer(t: Topology, v: nat, d: nat, k: nat, i: nat)
    requires t.Valid() && v < |t.links| && i < |t.links[v]|
    requires IsDistance(t, v, d, k + 1) && Walk(t, t.links[v][i], d, k)
    ensures IsDistance(t, t.links[v][i], d, k)
  {
    forall j: nat | j < k
      ensures !Walk(t, t.links[v][i], d, j)
    {
      assert !Walk(t, v, d, j + 1);
    }
  }

  ghost predicate IsFullTable(t: Topology, hops: Hops, addrs: seq<nat>, defaults: seq<Option<nat>>, v: nat,
                              table: seq<Route>)
    requires ShortestHops(t, hops) && |addrs| == |defaults| == |t.links| && v < |t.links|
  {
    exists own, extra :: table == own + extra && IsTable(t, hops, addrs, defaults, v, own, |t.links|)
      && Foreign(extra, addrs)
  }

  ghost predicate Routed(t: Topology, hops: Hops, addrs: seq<nat>, defaults: seq<Option<nat>>,
                         tables: seq<seq<Route>>) {
    && ShortestHops(t, hops) && |addrs| == |defaults| == |t.links| == |tables|
    && Layered(t, defaults) && Distinct(addrs)
    && forall v :: 0 <= v < |tables| ==> IsFullTable(t, hops, addrs, defaults, v, tables[v])
  }

  /** The only interface that the lookup at v can return for d leads one hop nearer to d, and there is one. */
  lemma LookupNearer(t: Topology, hops: Hops, addrs: seq<nat>, defaults: seq<Option<nat>>, tables: seq<seq<Route>>,
                     v: nat, d: nat, k: nat)
    returns (best: Route)
    requires Routed(t, hops, addrs, defaults, tables) && v < |t.links| && d < |t.links|
    requires IsDistance(t, v, d, k + 1)
    ensures IsBest(tables[v], addrs[d], best)
    ensures forall r :: IsBest(tables[v], addrs[d], r) ==> r.ie == best.ie
    ensures best.ie < |t.links[v]| && IsDistance(t, t.links[v][best.ie], d, k)
    ensures t.types[v] != EndSystem ==> hops[d][v] == Some(best.ie)
  {
    assert IsFullTable(t, hops, addrs, defaults, v, tables[v]);
    var own, extra :| tables[v] == own + extra && IsTable(t, hops, addrs, defaults, v, own, |t.links|)
      && Foreign(extra, addrs);
    assert !Walk(t, v, d, 0);
    assert IsHop(t, v, d, hops[d][v]);
    var h := hops[d][v].value;
    if t.types[v] == EndSystem {
      best := Route(0, 0, 0);
      var i :| 0 <= i < |t.links[v]| && Walk(t, t.links[v][i], d, k);
      OneNearer(t, v, d, k, 0);
    } else {
      OneNearer(t, v, d, k, h);
      if hops[d][v] == defaults[v] {
        best := Route(0, 0, h);
      } else {
        best := Route(addrs[d], 32, h);
        assert IsException(t, hops, addrs, defaults, v, d, best);
      }
    }
    assert best in own;
    forall r | r in tables[v] && Matches(r, addrs[d])
      ensures r == best || (r.bits == 0 && best.bits == 32)
    {
      assert r in own;
    }
  }

  /** path is a trip that packets to addr may take. */
  ghost predicate IsTrip(t: Topology, tables: seq<seq<Route>>, addr: nat, path: seq<nat>)
    requires t.Valid() && |tables| == |t.links|
  {
    && (forall i :: 0 <= i < |path| ==> path[i] < |t.links|)
    && (forall i :: 0 <= i < |path| - 1 ==> Forwards(t, tables[path[i]], addr, path[i], path[i + 1]))
  }

  ghost predicate Forwards(t: Topology, table: seq<Route>, addr: nat, v: nat, w: nat)
    requires t.Valid() && v < |t.links|
  {
    exists r :: IsBest(table, addr, r) && r.ie < |t.links[v]| && t.links[v][r.ie] == w
  }

  /**
   Default routes plus exceptions forward as the full shortest-path table would: every trip of
   a packet to a reachable node of the AS is at its destination after the least possible number
   of hops, and not before.
   */
  lemma {:induction false} TripsAreShortest(t: Topology, hops: Hops, addrs: seq<nat>, defaults: seq<Option<nat>>,
                                            tables: seq<seq<Route>>, d: nat, k: nat, path: seq<nat>)
    requires Routed(t, hops, addrs, defaults, tables) && d < |t.links|
    requires |path| == k + 1 && IsTrip(t, tables, addrs[d], path) && IsDistance(t, path[0], d, k)
    ensures path[k] == d && forall i :: 0 <= i < k ==> path[i] != d
    decreases k
  {
    if k > 0 {
      var best := LookupNearer(t, hops, addrs, defaults, tables, path[0], d, k - 1);
      assert Forwards(t, tables[path[0]], addrs[d], path[0], path[1]);
      var rest := path[1..];
      forall i | 0 <= i < |rest| - 1
        ensures Forwards(t, tables[rest[i]], addrs[d], rest[i], rest[i + 1])
      {
        assert Forwards(t, tables[path[i + 1]], addrs[d], path[i + 1], path[i + 2]);
      }
      TripsAreShortest(t, hops, addrs, defaults, tables, d, k - 1, rest);
      assert path[0] != d by {
        assert !Walk(t, path[0], d, 0);
      }
      forall i | 0 < i < k
        ensures path[i] != d
      {
        assert path[i] == rest[i - 1];
      }
    }
  }

  /** There is such a trip: no packet to a reachable node is dropped on the way. */
  lemma {:induction false} TripExists(t: Topology, hops: Hops, addrs: seq<nat>, defaults: seq<Option<nat>>,
                                      tables: seq<seq<Route>>, v: nat, d: nat, k: nat)
    returns (path: seq<nat>)
    requires Routed(t, hops, addrs, defaults, tables) && v < |t.links| && d < |t.links| && IsDistance(t, v, d, k)
    ensures |path| == k + 1 && path[0] == v && IsTrip(t, tables, addrs[d], path)
    decreases k
  {
    if k == 0 {
      path := [v];
    } else {
      var best := LookupNearer(t, hops, addrs, defaults, tables, v, d, k - 1);
      var w := t.links[v][best.ie];
      var rest := TripExists(t, hops, addrs, defaults, tables, w, d, k - 1);
      path := [v] + rest;
      forall i | 0 <= i < |path| - 1
        ensures Forwards(t, tables[path[i]], addrs[d], path[i], path[i + 1])
      {
        if i > 0 {
          assert Forwards(t, tables[rest[i - 1]], addrs[d], rest[i - 1], rest[i]);
        }
      }
    }
  }

  /** A node that is reachable at all has a distance. */
  lemma {:induction false} DistanceExists(t: Topology, v: nat, d: nat, k: nat) returns (k': nat)
    requires t.Valid() && v < |t.links| && Walk(t, v, d, k)
    ensures IsDistance(t, v, d, k') && k' <= k
  {
    if j: nat :| j < k && Walk(t, v, d, j) {
      k' := DistanceExists(t, v, d, j);
    } else {
      k' := k;
    }
  }

  /** Routes with the prefixes of AS other than i. */
  ghost predicate ToOtherAS(extra: seq<Route>, nets: seq<nat>, i: nat) {
    forall r :: r in extra ==> exists j :: 0 <= j < |nets| && j != i && r == Route(nets[j], 16, r.ie)
  }

  /** The tables that the configurator sets up for AS i, with routes to other AS, are as assumed above. */
  lemma PlannedTablesRouted(nets: seq<nat>, plan: seq<seq<nat>>, i: nat, t: Topology, hops: Hops,
                            defaults: seq<Option<nat>>, own: seq<seq<Route>>, extra: seq<seq<Route>>,
                            tables: seq<seq<Route>>)
    requires IsPlan(nets, plan) && i < |plan|
    requires ShortestHops(t, hops) && |plan[i]| == |defaults| == |t.links| == |own| == |extra| == |tables|
      && Layered(t, defaults)
    requires forall v :: 0 <= v < |own| ==>
      IsTable(t, hops, plan[i], defaults, v, own[v], |t.links|) && tables[v] == own[v] + extra[v]
    requires forall v :: 0 <= v < |extra| ==> ToOtherAS(extra[v], nets, i)
    ensures Routed(t, hops, plan[i], defaults, tables)
  {
    var addrs := plan[i];
    forall a, b | 0 <= a < |addrs| && 0 <= b < |addrs| && addrs[a] == addrs[b]
      ensures a == b
    {
      PlanDistinct(nets, plan, i, a, i, b);
    }
    forall v | 0 <= v < |tables|
      ensures IsFullTable(t, hops, addrs, defaults, v, tables[v])
    {
      OtherASForeign(nets, plan, i, extra[v]);
      assert tables[v] == own[v] + extra[v];
    }
  }

  lemma OtherASForeign(nets: seq<nat>, plan: seq<seq<nat>>, i: nat, extra: seq<Route>)
    requires IsPlan(nets, plan) && i < |plan|
    requires ToOtherAS(extra, nets, i)
    ensures Foreign(extra, plan[i])
  {
    forall r, a | r in extra && 0 <= a < |plan[i]|
      ensures r.bits == 16 && Prefix(r.host) != Prefix(plan[i][a])
    {
      var j :| 0 <= j < |nets| && j != i && r == Route(nets[j], 16, r.ie);
      ASRoutesSeparate(nets, plan, i, j, r.ie);
      assert !Matches(r, plan[i][a]);
    }
  }

  /* ---------- leaving the AS ---------- */

  ghost predicate HasLinkTo(t: Topology, v: nat, ty: RouterType)
    requires t.Valid() && v < |t.links|
  {
    exists i :: 0 <= i < |t.links[v]| && t.types[t.links[v][i]] == ty
  }

  /** Every node has a link to the next level: end systems to an edge router, these to a gateway, these to the core. */
  ghost predicate Climbable(t: Topology)
    requires t.Valid()
  {
    forall v :: 0 <= v < |t.links| ==>
      && (t.types[v] == EndSystem ==> HasLinkTo(t, v, Edge))
      && (t.types[v] == Edge ==> HasLinkTo(t, v, Gateway))
      && (t.types[v] == Gateway ==> HasLinkTo(t, v, Core))
  }

  /** The levels from a node up to the core. */
  function Climb(ty: RouterType): (levels: seq<RouterType>)
    ensures levels != [] && levels[0] == ty
  {
    match ty
    case EndSystem => [EndSystem, Edge, Gateway, Core]
    case Edge => [Edge, Gateway, Core]
    case Gateway => [Gateway, Core]
    case Core => [Core]
  }

  /** The default of v leads one level up, if a link does. */
  ghost predicate DefaultUp(t: Topology, v: nat, ie: Option<nat>)
    requires t.Valid() && v < |t.links|
  {
    && (t.types[v] == EndSystem ==> LeadsTo(t, v, ie, Edge))
    && (t.types[v] == Edge ==> LeadsTo(t, v, ie, Gateway))
    && (t.types[v] == Gateway ==> LeadsTo(t, v, ie, Core))
  }

  ghost predicate LeadsTo(t: Topology, v: nat, ie: Option<nat>, ty: RouterType)
    requires t.Valid() && v < |t.links|
  {
    && (HasLinkTo(t, v, ty) <==> ie.Some?)
    && (ie.Some? ==> ie.value < |t.links[v]| && t.types[t.links[v][ie.value]] == ty)
  }

  /** Only the core routers have routes to other AS. */
  ghost predicate InnerTables(t: Topology, hops: Hops, addrs: seq<nat>, defaults: seq<Option<nat>>,
                              tables: seq<seq<Route>>) {
    && ShortestHops(t, hops) && |addrs| == |defaults| == |t.links| == |tables|
    && forall v :: 0 <= v < |t.links| && t.types[v] != Core ==>
      DefaultUp(t, v, defaults[v]) && IsTable(t, hops, addrs, defaults, v, tables[v], |t.links|)
  }

  /** A packet for an address outside of the AS goes one level up, and there is no other way. */
  lemma OneLevelUp(t: Topology, hops: Hops, addrs: seq<nat>, defaults: seq<Option<nat>>, tables: seq<seq<Route>>,
                   addr: nat, v: nat)
    returns (w: nat)
    requires InnerTables(t, hops, addrs, defaults, tables) && Climbable(t) && addr !in addrs
    requires v < |t.links| && t.types[v] != Core
    ensures w < |t.links| && Forwards(t, tables[v], addr, v, w) && Climb(t.types[v])[1..] == Climb(t.types[w])
    ensures forall w' :: Forwards(t, tables[v], addr, v, w') ==> w' == w
  {
    assert DefaultUp(t, v, defaults[v]) && IsTable(t, hops, addrs, defaults, v, tables[v], |t.links|);
    assert HasLinkTo(t, v, Climb(t.types[v])[1]) && LeadsTo(t, v, defaults[v], Climb(t.types[v])[1]);
    hide ShortestHops, Climbable;
    var up := Route(0, 0, defaults[v].value);
    w := t.links[v][up.ie];
    assert up in tables[v];
    assert forall r :: r in tables[v] && Matches(r, addr) ==> r == up;
    assert IsBest(tables[v], addr, up);
  }

  function Levels(t: Topology, path: seq<nat>): seq<RouterType>
    requires t.Valid() && forall i :: 0 <= i < |path| ==> path[i] < |t.links|
  {
    seq(|path|, i requires 0 <= i < |path| => t.types[path[i]])
  }

  lemma TripTail(t: Topology, tables: seq<seq<Route>>, addr: nat, path: seq<nat>)
    requires t.Valid() && |tables| == |t.links| && |path| > 0
    ensures IsTrip(t, tables, addr, path) <==>
      && path[0] < |t.links| && IsTrip(t, tables, addr, path[1..])
      && (|path| > 1 ==> Forwards(t, tables[path[0]], addr, path[0], path[1]))
  {
    hide Forwards;
    var rest := path[1..];
    assert forall i :: 0 <= i < |rest| ==> rest[i] == path[i + 1];
    if path[0] < |t.links| && IsTrip(t, tables, addr, rest) {
      forall i | 0 < i < |path|
        ensures path[i] < |t.links|
      {
        assert path[i] == rest[i - 1];
      }
      forall i | 0 < i < |path| - 1
        ensures Forwards(t, tables[path[i]], addr, path[i], path[i + 1])
      {
        assert Forwards(t, tables[rest[i - 1]], addr, rest[i - 1], rest[i]);
      }
    }
  }

  /**
   Default routes are for packets that leave the AS: from any node every trip visits the levels up to the
   core one after the other, and so is at a core router after 3 hops from an end system, 2 from an edge
   router and 1 from a gateway.
   */
  lemma {:induction false} TripsClimb(t: Topology, hops: Hops, addrs: seq<nat>, defaults: seq<Option<nat>>,
                                      tables: seq<seq<Route>>, addr: nat, path: seq<nat>)
    requires InnerTables(t, hops, addrs, defaults, tables) && Climbable(t) && addr !in addrs
    requires IsTrip(t, tables, addr, path) && path != [] && |path| == |Climb(t.types[path[0]])|
    ensures Levels(t, path) == Climb(t.types[path[0]])
    decreases |path|
  {
    if t.types[path[0]] != Core {
      hide InnerTables, Climbable, IsTrip, Forwards;
      var w := OneLevelUp(t, hops, addrs, defaults, tables, addr, path[0]);
      TripTail(t, tables, addr, path);
      assert path[1] == w;
      TripsClimb(t, hops, addrs, defaults, tables, addr, path[1..]);
    }
  }

  /** No packet that leaves the AS is dropped on its way to the core. */
  lemma {:induction false} TripClimbs(t: Topology, hops: Hops, addrs: seq<nat>, defaults: seq<Option<nat>>,
                                      tables: seq<seq<Route>>, addr: nat, v: nat)
    returns (path: seq<nat>)
    requires InnerTables(t, hops, addrs, defaults, tables) && Climbable(t) && addr !in addrs && v < |t.links|
    ensures |path| == |Climb(t.types[v])| && path[0] == v && IsTrip(t, tables, addr, path)
    decreases |Climb(t.types[v])|
  {
    path := [v];
    if t.types[v] != Core {
      hide InnerTables, Climbable, Forwards;
      var w := OneLevelUp(t, hops, addrs, defaults, tables, addr, v);
      var rest := TripClimbs(t, hops, addrs, defaults, tables, addr, w);
      hide IsTrip;
      path := [v] + rest;
      assert path[1..] == rest;
      TripTail(t, tables, addr, path);
    }
  }

  /** path is a trip from v that is as long as the way up to the core. */
  ghost predicate TripUp(t: Topology, tables: seq<seq<Route>>, addr: nat, v: nat, path: seq<nat>)
    requires t.Valid() && |tables| == |t.links| && v < |t.links|
  {
    |path| == |Climb(t.types[v])| && path[0] == v && IsTrip(t, tables, addr, path)
  }

  /** Packets for addr leave the AS through its core, from wherever they start. */
  ghost predicate LeavesByCore(t: Topology, tables: seq<seq<Route>>, addr: nat)
    requires t.Valid() && |tables| == |t.links|
  {
    forall v :: 0 <= v < |t.links| ==> LeavesFrom(t, tables, addr, v)
  }

  ghost predicate LeavesFrom(t: Topology, tables: seq<seq<Route>>, addr: nat, v: nat)
    requires t.Valid() && |tables| == |t.links| && v < |t.links|
  {
    && (exists path :: TripUp(t, tables, addr, v, path))
    && (forall path :: TripUp(t, tables, addr, v, path) ==> Levels(t, path) == Climb(t.types[v]))
  }

  lemma AllLeaveByCore(t: Topology, hops: Hops, addrs: seq<nat>, defaults: seq<Option<nat>>, tables: seq<seq<Route>>,
                       addr: nat)
    requires InnerTables(t, hops, addrs, defaults, tables) && Climbable(t) && addr !in addrs
    ensures LeavesByCore(t, tables, addr)
  {
    HopsValid(t, hops);
    hide Forwards, Climb, InnerTables, Climbable;
    forall v | 0 <= v < |t.links|
      ensures LeavesFrom(t, tables, addr, v)
    {
      var path := TripClimbs(t, hops, addrs, defaults, tables, addr, v);
      assert TripUp(t, tables, addr, v, path);
      forall path | TripUp(t, tables, addr, v, path)
        ensures Levels(t, path) == Climb(t.types[v])
      {
        TripsClimb(t, hops, addrs, defaults, tables, addr, path);
      }
    }
  }

  /** Every end system has one link, which leads to an edge router. */
  ghost predicate OneUplink(t: Topology)
    requires t.Valid()
  {
    forall v :: 0 <= v < |t.links| && t.types[v] == EndSystem ==> |t.links[v]| == 1 && t.types[t.links[v][0]] == Edge
  }

  method DefaultInterfaces(t: Topology) returns (defaults: seq<Option<nat>>)
    requires t.Valid() && OneUplink(t)
    ensures |defaults| == |t.links| && Layered(t, defaults)
    ensures forall v :: 0 <= v < |t.links| ==> DefaultUp(t, v, defaults[v])
  {
    defaults := [];
    for v := 0 to |t.links|
      invariant |defaults| == v
      invariant forall u :: 0 <= u < v ==>
        && (t.types[u] == Core ==> defaults[u].None?)
        && (t.types[u] == EndSystem ==> defaults[u] == Some(0))
        && (defaults[u].Some? ==> defaults[u].value < |t.links[u]|) && DefaultUp(t, u, defaults[u])
    {
      var ie := DefaultInterface(t, v);
      defaults := defaults + [ie];
    }
  }

  /** The routing tables of AS i, to which routes to other AS are added in the end. */
  method ConfigureAS(ghost nets: seq<nat>, plan: seq<seq<nat>>, i: nat, t: Topology, hops: Hops, extra: seq<seq<Route>>)
    returns (defaults: seq<Option<nat>>, tables: seq<seq<Route>>)
    requires IsPlan(nets, plan) && i < |plan|
    requires ShortestHops(t, hops) && OneUplink(t) && |plan[i]| == |t.links| == |extra|
    requires forall v :: 0 <= v < |extra| ==> ToOtherAS(extra[v], nets, i)
    ensures |defaults| == |t.links| && Routed(t, hops, plan[i], defaults, tables)
    ensures Climbable(t) && OnlyCore(t, extra) ==>
      forall addr: nat :: addr !in plan[i] ==> LeavesByCore(t, tables, addr)
  {
    hide IsTable, ToOtherAS, Layered, Routed, ShortestHops, OneUplink, DefaultUp, Climbable, OnlyCore, LeavesByCore;
    HopsValid(t, hops);
    defaults := DefaultInterfaces(t);
    var before := SetDefaultRoutes(defaults);
    var own := SetIntraASRoutes(t, hops, plan[i], defaults, before);
    tables := [];
    for v := 0 to |own|
      invariant |tables| == v
      invariant forall u :: 0 <= u < v ==> tables[u] == own[u] + extra[u]
    {
      tables := tables + [own[v] + extra[v]];
    }
    PlannedTablesRouted(nets, plan, i, t, hops, defaults, own, extra, tables);
    if Climbable(t) && OnlyCore(t, extra) {
      InnerSetUp(t, hops, plan[i], defaults, own, extra, tables);
      forall addr: nat | addr !in plan[i]
        ensures LeavesByCore(t, tables, addr)
      {
        AllLeaveByCore(t, hops, plan[i], defaults, tables, addr);
      }
    }
  }

  /** Routes to other AS are added at core routers only. */
  ghost predicate OnlyCore(t: Topology, extra: seq<seq<Route>>)
    requires t.Valid() && |extra| == |t.links|
  {
    forall v :: 0 <= v < |extra| && t.types[v] != Core ==> extra[v] == []
  }

  lemma InnerSetUp(t: Topology, hops: Hops, addrs: seq<nat>, defaults: seq<Option<nat>>, own: seq<seq<Route>>,
                   extra: seq<seq<Route>>, tables: seq<seq<Route>>)
    requires ShortestHops(t, hops) && |addrs| == |defaults| == |t.links| == |own| == |extra| == |tables|
    requires forall v :: 0 <= v < |own| ==>
      IsTable(t, hops, addrs, defaults, v, own[v], |t.links|) && tables[v] == own[v] + extra[v]
    requires OnlyCore(t, extra) && forall v :: 0 <= v < |t.links| ==> DefaultUp(t, v, defaults[v])
    ensures InnerTables(t, hops, addrs, defaults, tables)
  {
    HopsValid(t, hops);
    hide IsTable, DefaultUp, ShortestHops;
    forall v | 0 <= v < |t.links| && t.types[v] != Core
      ensures IsTable(t, hops, addrs, defaults, v, tables[v], |t.links|)
    {
      assert tables[v] == own[v] + extra[v] == own[v];
    }
  }

  lemma HopsValid(t: Topology, hops: Hops)
    requires ShortestHops(t, hops)
    ensures t.Valid()
  {
  }
}
