/**
 What reassembly does with fragments that overlap. Which fragments come into the main range depends
 on their order of arrival: the main range follows a chain of fragments, each of which begins where
 the one before ends, until no further fragment begins there.
 */
module ReassemblyChains {
  import opened Reassembly

  ghost function ChainEnd(c: seq<Region>): nat {
    if c == [] then 0 else c[|c| - 1].end
  }

  /** Fragments of rs that connect, from offset 0 on. */
  ghost predicate IsChain(rs: set<Region>, c: seq<Region>) {
    forall i :: 0 <= i < |c| ==> c[i] in rs && c[i].beg == ChainEnd(c[..i])
  }

  ghost predicate HasLast(c: seq<Region>) {
    exists f :: f in c && f.last
  }

  /** No other fragment of rs begins where the chain ends. */
  ghost predicate Maximal(rs: set<Region>, c: seq<Region>) {
    IsChain(rs, c) && forall f :: f in rs && f.beg == ChainEnd(c) ==> f in c
  }

  /* ---------- every run follows a maximal chain ---------- */

  /** The main range is that of the chain c; fragments beyond it are stored. */
  ghost predicate Follows(b: Buffer, c: seq<Region>, rs: set<Region>) {
    && IsChain(rs, c)
    && b.main == Region(0, ChainEnd(c), HasLast(c))
    && (forall f :: f in b.stored ==> f in rs)
    && (forall f :: f in rs && f.beg >= b.main.end ==> f in b.stored || f in c)
  }

  lemma ChainMore(rs: set<Region>, c: seq<Region>, f: Region)
    requires IsChain(rs, c) && f in rs && f.beg == ChainEnd(c)
    ensures IsChain(rs, c + [f]) && ChainEnd(c + [f]) == f.end && (HasLast(c + [f]) <==> HasLast(c) || f.last)
  {
    var c' := c + [f];
    forall i | 0 <= i < |c'|
      ensures c'[i] in rs && c'[i].beg == ChainEnd(c'[..i])
    {
      assert i < |c| ==> c'[..i] == c[..i];
      assert i == |c| ==> c'[..i] == c;
    }
    if HasLast(c) {
      var g :| g in c && g.last;
      assert g in c';
    }
    assert f in c';
  }

  lemma ExtendFollows(m: Region, f: Region, stored: seq<Region>, stored': seq<Region>, rs: set<Region>, c: seq<Region>)
    returns (c': seq<Region>)
    requires WellFormed(rs) && f in rs && Joins(m, f) && Follows(Buffer(m, stored), c, rs)
    requires forall g :: g in stored' ==> g in stored
    requires forall g :: g in stored && g != f ==> g in stored'
    ensures Follows(Buffer(Extend(m, f), stored'), c', rs)
  {
    c' := c;
    if m.end == f.beg {
      ChainMore(rs, c, f);
      c' := c + [f];
    }
  }

  lemma {:induction false} PassFollows(b: Buffer, kept: seq<Region>, rs: set<Region>, c: seq<Region>)
    returns (c': seq<Region>)
    requires WellFormed(rs) && Follows(Buffer(b.main, kept + b.stored), c, rs)
    ensures Follows(Buffer(Pass(b).main, kept + Pass(b).stored), c', rs)
    decreases |b.stored|
  {
    hide Follows;
    c' := c;
    if b.stored != [] {
      var f, rest := b.stored[0], b.stored[1..];
      assert kept + b.stored == kept + [f] + rest;
      if Joins(b.main, f) {
        StoredReceived(b, kept, rs, c);
        c' := ExtendFollows(b.main, f, kept + b.stored, kept + rest, rs, c);
        c' := PassFollows(Buffer(Extend(b.main, f), rest), kept, rs, c');
      } else {
        c' := PassFollows(Buffer(b.main, rest), kept + [f], rs, c);
        assert kept + Pass(b).stored == kept + [f] + Pass(Buffer(b.main, rest)).stored;
      }
    }
  }

  lemma StoredReceived(b: Buffer, kept: seq<Region>, rs: set<Region>, c: seq<Region>)
    requires Follows(Buffer(b.main, kept + b.stored), c, rs) && b.stored != []
    ensures b.stored[0] in rs
  {
    assert b.stored[0] in kept + b.stored;
  }

  lemma {:induction false} SettleFollows(b: Buffer, rs: set<Region>, c: seq<Region>) returns (c': seq<Region>)
    requires WellFormed(rs) && Follows(b, c, rs)
    ensures Follows(Settle(b), c', rs)
    decreases |b.stored|
  {
    assert [] + b.stored == b.stored && [] + Pass(b).stored == Pass(b).stored;
    c' := PassFollows(b, [], rs, c);
    if |Pass(b).stored| != |b.stored| {
      c' := SettleFollows(Pass(b), rs, c');
    }
  }

  lemma AddFollows(b: Buffer, f: Region, rs: set<Region>, c: seq<Region>) returns (c': seq<Region>)
    requires WellFormed(rs + {f}) && Follows(b, c, rs)
    ensures Follows(Add(b, f), c', rs + {f})
  {
    var rs' := rs + {f};
    assert f in rs' && IsChain(rs', c);
    hide Settle;
    assert Follows(Buffer(b.main, b.stored + [f]), c, rs');
    c' := c;
    if b.main.end == f.beg || b.main.beg == f.end {
      c' := ExtendFollows(b.main, f, b.stored + [f], b.stored, rs', c);
      c' := SettleFollows(Buffer(Extend(b.main, f), b.stored), rs', c');
    }
  }

  lemma {:induction false} RunFollows(fs: seq<Region>) returns (c: seq<Region>)
    requires WellFormed(Received(fs))
    ensures Follows(Run(fs), c, Received(fs))
  {
    c := [];
    if fs != [] {
      var n := |fs| - 1;
      assert Received(fs) == Received(fs[..n]) + {fs[n]};
      c := RunFollows(fs[..n]);
      hide Follows;
      c := AddFollows(Run(fs[..n]), fs[n], Received(fs[..n]), c);
    }
  }

  /** In every order of arrival the main range ends up with the fragments of a maximal chain. */
  lemma RunIsMaximalChain(fs: seq<Region>) returns (c: seq<Region>)
    requires WellFormed(Received(fs))
    ensures Maximal(Received(fs), c) && Run(fs).main == Region(0, ChainEnd(c), HasLast(c))
  {
    RunSound(fs);
    c := RunFollows(fs);
    hide Run;
  }

  /* ---------- every maximal chain has a run ---------- */

  lemma {:induction false} ChainRun(rs: set<Region>, c: seq<Region>)
    requires IsChain(rs, c)
    ensures Run(c) == Buffer(Region(0, ChainEnd(c), HasLast(c)), [])
  {
    if c != [] {
      var n := |c| - 1;
      var b := c[..n];
      forall i | 0 <= i < |b|
        ensures b[i] in rs && b[i].beg == ChainEnd(b[..i])
      {
        assert b[..i] == c[..i];
      }
      ChainRun(rs, b);
      ChainMore(rs, b, c[n]);
      assert b + [c[n]] == c;
    }
  }

  lemma {:induction false} ChainGrows(rs: set<Region>, c: seq<Region>, i: nat)
    requires WellFormed(rs) && IsChain(rs, c) && i < |c|
    ensures c[i].end <= ChainEnd(c)
    decreases |c| - i
  {
    if i + 1 < |c| {
      assert c[i + 1].beg == ChainEnd(c[..i + 1]);
      ChainGrows(rs, c, i + 1);
    }
  }

  lemma {:induction false} SettledStays(b: Buffer)
    requires Settled(b)
    ensures Pass(b) == b && Settle(b) == b
    decreases |b.stored|
  {
    if b.stored != [] {
      assert b.stored[0] in b.stored;
      SettledStays(Buffer(b.main, b.stored[1..]));
    }
  }

  /** A fragment that does not begin where a settled main range ends, or brings nothing new, leaves it as it is. */
  lemma NothingNew(b: Buffer, f: Region)
    requires Settled(b) && b.main.beg == 0 && f.beg <= f.end
    requires f.beg == b.main.end ==> f.end == b.main.end && (f.last ==> b.main.last)
    ensures Add(b, f).main == b.main
  {
    SettledStays(b);
  }

  /** The fragments that arrive after a maximal chain change nothing. */
  lemma {:induction false} LateFragments(rs: set<Region>, c: seq<Region>, fs: seq<Region>)
    requires WellFormed(rs) && Maximal(rs, c) && c <= fs && Received(fs) <= rs
    ensures Run(fs).main == Region(0, ChainEnd(c), HasLast(c))
    decreases |fs|
  {
    ChainRun(rs, c);
    hide Run, Maximal, WellFormed, ChainEnd, HasLast, IsChain, Received;
    if |fs| == |c| {
      assert fs == c;
    } else {
      var before, f := fs[..|fs| - 1], fs[|fs| - 1];
      assert before + [f] == fs && c <= before;
      ReceivedMore(before, f);
      LateFragments(rs, c, before);
      LateFragment(rs, c, before, f);
    }
  }

  lemma ChainReceived(rs: set<Region>, c: seq<Region>)
    requires IsChain(rs, c)
    ensures forall f :: f in c ==> f in rs
  {
  }

  lemma ReceivedMore(fs: seq<Region>, f: Region)
    ensures Received(fs + [f]) == Received(fs) + {f}
  {
  }

  lemma LateFragment(rs: set<Region>, c: seq<Region>, fs: seq<Region>, f: Region)
    requires WellFormed(rs) && Maximal(rs, c) && f in rs && Received(fs) <= rs
    requires Run(fs).main == Region(0, ChainEnd(c), HasLast(c))
    ensures Run(fs + [f]).main == Run(fs).main
  {
    assert (fs + [f])[..|fs|] == fs;
    assert Run(fs + [f]) == Add(Run(fs), f);
    RunSound(fs);
    hide Run, Add, Settle, Pass;
    if f.beg == ChainEnd(c) {
      var i :| 0 <= i < |c| && c[i] == f;
      ChainGrows(rs, c, i);
    }
    NothingNew(Run(fs), f);
  }

  lemma {:induction false} Listed(rs: set<Region>) returns (fs: seq<Region>)
    ensures Received(fs) == rs
  {
    fs := [];
    if rs != {} {
      var f :| f in rs;
      fs := Listed(rs - {f});
      assert Received(fs + [f]) == Received(fs) + {f};
      fs := fs + [f];
    }
  }

  lemma ChainFirst(rs: set<Region>, c: seq<Region>) returns (fs: seq<Region>)
    requires WellFormed(rs) && Maximal(rs, c)
    ensures Received(fs) == rs && Run(fs).main == Region(0, ChainEnd(c), HasLast(c))
  {
    var rest := Listed(rs);
    fs := c + rest;
    ChainReceived(rs, c);
    assert Received(fs) == Received(c) + Received(rest);
    LateFragments(rs, c, fs);
  }

  /* ---------- completion ---------- */

  /**
   The fragments rs, which may overlap, complete in every order of arrival, however often they are
   repeated, exactly if every maximal chain contains a last fragment.
   */
  lemma AlwaysCompletesExactly(rs: set<Region>)
    requires WellFormed(rs)
    ensures (forall fs :: Received(fs) == rs ==> Complete(Run(fs))) <==> (forall c :: Maximal(rs, c) ==> HasLast(c))
  {
    hide Run, Maximal;
    if forall c :: Maximal(rs, c) ==> HasLast(c) {
      forall fs | Received(fs) == rs
        ensures Complete(Run(fs))
      {
        var c := RunIsMaximalChain(fs);
      }
    }
    if forall fs :: Received(fs) == rs ==> Complete(Run(fs)) {
      forall c | Maximal(rs, c)
        ensures HasLast(c)
      {
        var fs := ChainFirst(rs, c);
      }
    }
  }

  /** And they complete in some order of arrival exactly if some maximal chain does. */
  lemma SometimesCompletesExactly(rs: set<Region>)
    requires WellFormed(rs)
    ensures (exists fs :: Received(fs) == rs && Complete(Run(fs))) <==> (exists c :: Maximal(rs, c) && HasLast(c))
  {
    hide Run, Maximal;
    if fs :| Received(fs) == rs && Complete(Run(fs)) {
      var c := RunIsMaximalChain(fs);
    }
    if c :| Maximal(rs, c) && HasLast(c) {
      var fs := ChainFirst(rs, c);
    }
  }
}
