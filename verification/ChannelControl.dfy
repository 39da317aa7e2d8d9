/** Which hosts are in radio range of each other: a cached neighbour relation, and a cached list of it per host. */
module ChannelControl {
  import opened Common

  datatype Coord = Coord(x: real, y: real)

  function SqrDist(a: Coord, b: Coord): real {
    (a.x - b.x) * (a.x - b.x) + (a.y - b.y) * (a.y - b.y)
  }

  lemma SqrDistSymmetric(a: Coord, b: Coord)
    ensures SqrDist(a, b) == SqrDist(b, a)
  {
    assert (a.x - b.x) * (a.x - b.x) == (b.x - a.x) * (b.x - a.x);
    assert (a.y - b.y) * (a.y - b.y) == (b.y - a.y) * (b.y - a.y);
  }

  lemma SquareOrder(x: real, y: real)
    requires 0.0 <= x < y
    ensures x * x < y * y
  {
    var d := y - x;
    assert d * d > 0.0 && x * d >= 0.0;
    assert y * y == (x + d) * (x + d) == x * x + 2.0 * (x * d) + d * d;
  }

  lemma SquarePositive(x: real)
    ensures x * x >= 0.0 && (x * x == 0.0 <==> x == 0.0)
  {
    var y := if x < 0.0 then -x else x;
    assert y * y == x * x;
    if y > 0.0 {
      SquareOrder(0.0, y);
    }
  }

  lemma SquareNegated(x: real)
    ensures (-x) * (-x) == x * x
  {
  }

  lemma SqrDistIs(a: Coord, b: Coord, x: real, y: real)
    requires a.x - b.x == x && a.y - b.y == y
    ensures SqrDist(a, b) == x * x + y * y
  {
  }

  /** The distance is zero between equal points only, is the same between shifted points, and obeys Pythagoras. */
  lemma SqrDistIsDistance(a: Coord, b: Coord, dx: real, dy: real)
    ensures SqrDist(a, b) == 0.0 <==> a == b
    ensures SqrDist(Coord(a.x + dx, a.y + dy), Coord(b.x + dx, b.y + dy)) == SqrDist(a, b)
    ensures SqrDist(a, b) == SqrDist(a, Coord(b.x, a.y)) + SqrDist(Coord(b.x, a.y), b)
    ensures SqrDist(a, Coord(a.x + dx, a.y)) == dx * dx && SqrDist(a, Coord(a.x, a.y + dy)) == dy * dy
  {
    SquarePositive(a.x - b.x);
    SquarePositive(a.y - b.y);
    var c := Coord(b.x, a.y);
    SqrDistIs(a, b, a.x - b.x, a.y - b.y);
    SqrDistIs(Coord(a.x + dx, a.y + dy), Coord(b.x + dx, b.y + dy), a.x - b.x, a.y - b.y);
    SqrDistIs(a, c, a.x - b.x, 0.0);
    SqrDistIs(c, b, 0.0, a.y - b.y);
    SqrDistIs(a, Coord(a.x + dx, a.y), -dx, 0.0);
    SqrDistIs(a, Coord(a.x, a.y + dy), 0.0, -dy);
    SquareNegated(dx);
    SquareNegated(dy);
    hide SqrDist;
  }

  /** The comparison of squares is that of distances. */
  lemma InRangeByDistance(a: Coord, b: Coord, distance: real, max: real)
    requires distance >= 0.0 && max >= 0.0 && distance * distance == SqrDist(a, b)
    ensures SqrDist(a, b) < max * max <==> distance < max
  {
    if distance < max {
      SquareOrder(distance, max);
    } else if max < distance {
      SquareOrder(max, distance);
    }
  }

  class Host {
    const name: int
    var pos: Coord
    var channel: int
    var neighbors: set<Host>
    var neighborList: seq<Host>
    var isNeighborListValid: bool

    constructor (name: int, pos: Coord)
      ensures this.name == name && this.pos == pos && channel == 0 && neighbors == {} && !isNeighborListValid
    {
      this.name, this.pos, channel := name, pos, 0;
      neighbors, neighborList, isNeighborListValid := {}, [], false;
    }
  }

  /** The relation on hs is irreflexive, symmetric and stays within hs. */
  ghost predicate IsRelation(hs: set<Host>)
    reads hs`neighbors
  {
    && (forall h :: h in hs ==> h !in h.neighbors && h.neighbors <= hs)
    && (forall h, g :: h in hs && g in h.neighbors ==> h in g.neighbors)
  }

  /** Every element of xs, once. */
  ghost predicate Enumerates<T>(list: seq<T>, xs: set<T>) {
    multiset(list) == multiset(xs)
  }

  lemma EnumeratesMore<T>(list: seq<T>, xs: set<T>, x: T)
    requires Enumerates(list, xs) && x !in xs
    ensures Enumerates(list + [x], xs + {x})
  {
  }

  /** Picking elements out of an enumeration. */
  lemma EnumeratesPart<T>(list: seq<T>, xs: set<T>, part: seq<T>, ys: set<T>)
    requires Enumerates(list, xs) && multiset(part) <= multiset(list) && forall x :: x in part <==> x in ys
    ensures Enumerates(part, ys)
  {
    forall x
      ensures multiset(part)[x] == multiset(ys)[x]
    {
      assert x in part <==> x in multiset(part);
    }
  }

  lemma EnumeratesMembers<T>(list: seq<T>, xs: set<T>)
    requires Enumerates(list, xs)
    ensures forall x :: x in list <==> x in xs
  {
    assert forall x :: x in list <==> x in multiset(list);
  }

  /** Iterates over a set, in some order. */
  method ListOf<T>(xs: set<T>) returns (list: seq<T>)
    ensures Enumerates(list, xs)
  {
    list := [];
    var left := xs;
    assert Enumerates(list, xs - left);
    while left != {}
      invariant left <= xs && Enumerates(list, xs - left)
      decreases left
    {
      var it :| it in left;
      EnumeratesMore(list, xs - left, it);
      assert xs - left + {it} == xs - (left - {it});
      list := list + [it];
      left := left - {it};
    }
    assert xs - left == xs;
  }

  /** A valid list enumerates the neighbours without duplicates. */
  ghost predicate ListsOk(hs: set<Host>)
    reads hs`neighbors, hs`neighborList, hs`isNeighborListValid
  {
    forall h :: h in hs && h.isNeighborListValid ==> Enumerates(h.neighborList, h.neighbors)
  }

  lemma BothWays(hs: set<Host>, a: Host, b: Host)
    requires IsRelation(hs) && a in hs && b in hs
    ensures b in a.neighbors <==> a in b.neighbors
  {
  }

  /** All pairs of different hosts of which h is one. */
  ghost function PairsWith(h: Host, hs: set<Host>): set<(Host, Host)> {
    (set x | x in hs && x != h :: (h, x)) + (set x | x in hs && x != h :: (x, h))
  }

  lemma PairsOf(h: Host, hs: set<Host>)
    ensures forall p :: p in PairsWith(h, hs) <==>
      (p.0 == h && p.1 in hs && p.1 != h) || (p.1 == h && p.0 in hs && p.0 != h)
  {
  }

  class ChannelControl {
    var hosts: seq<Host>
    const maxInterferenceDistance: real
    const numChannels: nat
    ghost var all: set<Host>
    ghost var settled: set<(Host, Host)>

    ghost predicate InRange(a: Host, b: Host)
      reads a`pos, b`pos
    {
      SqrDist(a.pos, b.pos) < maxInterferenceDistance * maxInterferenceDistance
    }

    /** Two hosts are neighbours exactly when one has moved since both registered and they are in range. */
    ghost predicate Exact()
      reads this`all, this`settled, all`neighbors, all`pos
    {
      forall a, b :: a in all && b in all && a != b ==> (b in a.neighbors <==> (a, b) in settled && InRange(a, b))
    }

    ghost predicate Valid()
      reads this, all
    {
      && (forall i, j :: 0 <= i < j < |hosts| ==> hosts[i] != hosts[j] && hosts[i].name != hosts[j].name)
      && all == (set h | h in hosts)
      && (forall p :: p in settled ==> p.0 in all && p.1 in all && (p.1, p.0) in settled)
      && IsRelation(all) && ListsOk(all) && Exact()
    }

    constructor (distance: real, channels: nat)
      ensures Valid() && hosts == [] && settled == {} && maxInterferenceDistance == distance && numChannels == channels
    {
      hosts, maxInterferenceDistance, numChannels := [], distance, channels;
      all, settled := {}, {};
    }

    method LookupHost(name: int) returns (r: Option<Host>)
      ensures r.Some? ==> r.value in hosts && r.value.name == name
      ensures r.None? ==> forall h :: h in hosts ==> h.name != name
    {
      for i := 0 to |hosts|
        invariant forall j :: 0 <= j < i ==> hosts[j].name != name
      {
        if hosts[i].name == name {
          return Some(hosts[i]);
        }
      }
      r := None;
    }

    /** Registering a name twice is an error; a new host has no neighbours until it or another one moves. */
    method RegisterHost(name: int, pos: Coord) returns (r: Option<Host>)
      requires Valid()
      modifies this`hosts, this`all
      ensures Valid()
      ensures r.None? <==> exists h :: h in old(hosts) && h.name == name
      ensures r.None? ==> hosts == old(hosts)
      ensures r.Some? ==> fresh(r.value) && r.value.pos == pos && r.value.neighbors == {}
      ensures r.Some? ==> hosts == old(hosts) + [r.value]
    {
      hide SqrDist, Enumerates;
      var known := LookupHost(name);
      if known.Some? {
        return None;
      }
      var he := new Host(name, pos);
      hosts := hosts + [he];
      all := all + {he};
      r := Some(he);
    }

    /** Connects h with every host in range and disconnects it from every other. */
    method UpdateConnections(h: Host)
      requires h in all && all == (set x | x in hosts)
      requires IsRelation(all) && ListsOk(all)
      modifies all`neighbors, all`isNeighborListValid
      ensures IsRelation(all) && ListsOk(all)
      ensures forall x :: x in all && x != h ==> (x in h.neighbors <==> InRange(h, x))
      ensures forall x, y :: x in all && y in all && x != h && y != h ==> (y in x.neighbors <==> y in old(x.neighbors))
    {
      hide IsRelation, ListsOk, SqrDist;
      for i := 0 to |hosts|
        invariant IsRelation(all) && ListsOk(all)
        invariant forall j :: 0 <= j < i && hosts[j] != h ==> (hosts[j] in h.neighbors <==> InRange(h, hosts[j]))
        invariant forall x, y :: x in all && y in all && x != h && y != h ==>
          (y in x.neighbors <==> y in old(x.neighbors))
      {
        var hi := hosts[i];
        if hi != h {
          Link(h, hi, SqrDist(h.pos, hi.pos) < maxInterferenceDistance * maxInterferenceDistance);
        }
      }
    }

    /** Puts the pair into the relation, or takes it out; only a change makes their lists invalid. */
    method Link(h: Host, hi: Host, inRange: bool)
      requires h in all && hi in all && h != hi
      requires IsRelation(all) && ListsOk(all)
      modifies h`neighbors, hi`neighbors, h`isNeighborListValid, hi`isNeighborListValid
      ensures IsRelation(all) && ListsOk(all)
      ensures h.neighbors == if inRange then old(h.neighbors) + {hi} else old(h.neighbors) - {hi}
      ensures hi.neighbors == if inRange then old(hi.neighbors) + {h} else old(hi.neighbors) - {h}
    {
      hide Enumerates;
      if inRange {
        if hi !in h.neighbors {
          h.neighbors := h.neighbors + {hi};
          hi.neighbors := hi.neighbors + {h};
          h.isNeighborListValid, hi.isNeighborListValid := false, false;
        }
      } else {
        if hi in h.neighbors {
          h.neighbors := h.neighbors - {hi};
          hi.neighbors := hi.neighbors - {h};
          h.isNeighborListValid, hi.isNeighborListValid := false, false;
        }
      }
    }

    method UpdateHostPosition(h: Host, pos: Coord)
      requires Valid() && h in all
      modifies h`pos, all`neighbors, all`isNeighborListValid, this`settled
      ensures Valid() && h.pos == pos
      ensures forall x :: x in all && x != h ==> (x in h.neighbors <==> InRange(h, x))
      ensures settled == old(settled) + PairsWith(h, all)
    {
      hide ListsOk, IsRelation, SqrDist, PairsWith;
      h.pos := pos;
      UpdateConnections(h);
      PairsOf(h, all);
      settled := settled + PairsWith(h, all);
      forall a, b | a in all && b in all && a != b
        ensures b in a.neighbors <==> (a, b) in settled && InRange(a, b)
      {
        if b == h {
          SqrDistSymmetric(a.pos, b.pos);
          BothWays(all, a, b);
        }
      }
      assert Valid();
    }

    /** The neighbours as a list, rebuilt from the set if it is not valid. */
    method GetNeighbors(h: Host) returns (list: seq<Host>)
      requires Valid() && h in all
      modifies h`neighborList, h`isNeighborListValid
      ensures Valid() && h.isNeighborListValid
      ensures list == h.neighborList && Enumerates(list, h.neighbors)
    {
      hide Enumerates, Exact, IsRelation;
      if !h.isNeighborListValid {
        var copy := ListOf(h.neighbors);
        h.neighborList := copy;
        h.isNeighborListValid := true;
      }
      list := h.neighborList;
    }

    method UpdateHostChannel(h: Host, channel: int) returns (ok: bool)
      requires Valid() && h in all
      modifies h`channel
      ensures Valid()
      ensures ok <==> 0 <= channel < numChannels
      ensures h.channel == if ok then channel else old(h.channel)
    {
      if channel >= numChannels || channel < 0 {
        return false;
      }
      h.channel := channel;
      ok := true;
    }

    /** Sends a copy of the frame to every neighbour that listens on its channel. */
    method SendToChannel(src: Host, channel: int) returns (reached: seq<Host>)
      requires Valid() && src in all
      modifies src`neighborList, src`isNeighborListValid
      ensures Valid()
      ensures Enumerates(reached, set x | x in src.neighbors && x.channel == channel)
      ensures forall x :: x in reached <==>
        x in all && x != src && (src, x) in settled && InRange(src, x) && x.channel == channel
    {
      var neighbors := GetNeighbors(src);
      reached := [];
      EnumeratesMembers(neighbors, src.neighbors);
      hide Enumerates, SqrDist;
      for i := 0 to |neighbors|
        invariant multiset(reached) <= multiset(neighbors[..i])
        invariant forall x :: x in reached <==> x in neighbors[..i] && x.channel == channel
      {
        var h := neighbors[i];
        assert neighbors[..i + 1] == neighbors[..i] + [h];
        if h.channel == channel {
          reached := reached + [h];
        }
      }
      assert neighbors[..|neighbors|] == neighbors;
      EnumeratesPart(neighbors, src.neighbors, reached, set x | x in src.neighbors && x.channel == channel);
    }
  }
}
