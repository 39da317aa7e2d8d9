/**
 Reassembly of a fragmented datagram: one main range that grows from offset 0, and a list
 of fragments that do not connect to it yet. Offsets are 16-bit and never added, so
 natural numbers carry them.
 */
module Reassembly {

  /** Offsets beg to end - 1; last if they are the final bytes of the datagram. */
  datatype Region = Region(beg: nat, end: nat, last: bool)

  datatype Buffer = Buffer(main: Region, stored: seq<Region>)

  const EMPTY := Buffer(Region(0, 0, false), [])

  /* ---------- the buffer as a function of the fragments ---------- */

  /** f connects to the main range, or lies inside it. */
  predicate Joins(m: Region, f: Region) {
    m.end == f.beg || m.beg == f.end || (m.beg <= f.beg && m.end >= f.end)
  }

  function Extend(m: Region, f: Region): Region {
    if m.end == f.beg then Region(m.beg, f.end, m.last || f.last)
    else if m.beg == f.end then m.(beg := f.beg)
    else m
  }

  /** One pass over the stored fragments, taking out every one that joins. */
  function Pass(b: Buffer): (b': Buffer)
    ensures |b'.stored| <= |b.stored|
    decreases |b.stored|
  {
    if b.stored == [] then b
    else if Joins(b.main, b.stored[0]) then Pass(Buffer(Extend(b.main, b.stored[0]), b.stored[1..]))
    else var b' := Pass(Buffer(b.main, b.stored[1..])); Buffer(b'.main, [b.stored[0]] + b'.stored)
  }

  /** A pass over the stored fragments from number i on. */
  function PassFrom(b: Buffer, i: nat): Buffer
    requires i <= |b.stored|
  {
    var r := Pass(Buffer(b.main, b.stored[i..]));
    Buffer(r.main, b.stored[..i] + r.stored)
  }

  lemma PassStep(b: Buffer, i: nat)
    requires i < |b.stored|
    ensures var f := b.stored[i];
      PassFrom(b, i) ==
        if Joins(b.main, f) then PassFrom(Buffer(Extend(b.main, f), b.stored[..i] + b.stored[i + 1..]), i)
        else PassFrom(b, i + 1)
  {
    var s, f := b.stored, b.stored[i];
    assert s[i..][1..] == s[i + 1..];
    if Joins(b.main, f) {
      var s' := s[..i] + s[i + 1..];
      assert s'[..i] == s[..i] && s'[i..] == s[i + 1..];
    } else {
      var r := Pass(Buffer(b.main, s[i + 1..]));
      assert s[..i] + ([f] + r.stored) == s[..i + 1] + r.stored;
    }
  }

  /** Passes until one takes out nothing. */
  function Settle(b: Buffer): Buffer
    decreases |b.stored|
  {
    var b' := Pass(b);
    if |b'.stored| == |b.stored| then b' else Settle(b')
  }

  function Add(b: Buffer, f: Region): Buffer {
    if b.main.end == f.beg then Settle(Buffer(Region(b.main.beg, f.end, b.main.last || f.last), b.stored))
    else if b.main.beg == f.end then Settle(Buffer(b.main.(beg := f.beg), b.stored))
    else if b.main.end < f.beg || b.main.beg > f.end then Buffer(b.main, b.stored + [f])
    else b
  }

  predicate Complete(b: Buffer) {
    b.main.beg == 0 && b.main.last
  }

  function Run(fs: seq<Region>): Buffer {
    if fs == [] then EMPTY else Add(Run(fs[..|fs| - 1]), fs[|fs| - 1])
  }

  /* ---------- the class ---------- */

  class ReassemblyBuffer {
    var main: Region
    var fragments: seq<Region>

    ghost function Buf(): Buffer
      reads this
    {
      Buffer(main, fragments)
    }

    constructor ()
      ensures Buf() == EMPTY
    {
      main, fragments := Region(0, 0, false), [];
    }

    method AddFragment(beg: nat, end: nat, islast: bool) returns (complete: bool)
      modifies this
      ensures Buf() == Add(old(Buf()), Region(beg, end, islast))
      ensures complete <==> Complete(Buf())
    {
      Merge(beg, end, islast);
      complete := main.beg == 0 && main.last;
    }

    method Merge(beg: nat, end: nat, islast: bool)
      modifies this
      ensures Buf() == Add(old(Buf()), Region(beg, end, islast))
    {
      if main.end == beg {
        main := main.(end := end);
        if islast {
          main := main.(last := true);
        }
        if fragments != [] {
          MergeFragments();
        }
      } else if main.beg == end {
        main := main.(beg := beg);
        if fragments != [] {
          MergeFragments();
        }
      } else if main.end < beg || main.beg > end {
        fragments := fragments + [Region(beg, end, islast)];
      }
    }

    method MergeFragments()
      modifies this
      ensures Buf() == Settle(old(Buf()))
    {
      var oncemore := true;
      while oncemore
        invariant if oncemore then Settle(Buf()) == Settle(old(Buf())) else Buf() == Settle(old(Buf()))
        decreases |fragments|, oncemore
      {
        oncemore := MergeOnce();
      }
    }

    /** One pass over the stored fragments. */
    method MergeOnce() returns (oncemore: bool)
      modifies this
      ensures Buf() == Pass(old(Buf()))
      ensures oncemore <==> |fragments| < |old(fragments)|
    {
      oncemore := false;
      var i := 0;
      while i < |fragments|
        invariant 0 <= i <= |fragments| <= |old(fragments)|
        invariant oncemore <==> |fragments| < |old(fragments)|
        invariant Pass(old(Buf())) == PassFrom(Buf(), i)
        decreases |fragments| - i
      {
        hide Extend, Joins, Pass, PassFrom;
        PassStep(Buf(), i);
        var deleteit := Absorb(fragments[i]);
        if deleteit {
          fragments := fragments[..i] + fragments[i + 1..];
          oncemore := true;
        } else {
          i := i + 1;
        }
      }
    }

    /** Extends the main range by frag, if it joins; then frag need not be stored any longer. */
    method Absorb(frag: Region) returns (deleteit: bool)
      modifies this`main
      ensures main == Extend(old(main), frag)
      ensures deleteit <==> Joins(old(main), frag)
      ensures !deleteit ==> main == old(main)
    {
      deleteit := false;
      if main.end == frag.beg {
        main := main.(end := frag.end);
        if frag.last {
          main := main.(last := true);
        }
        deleteit := true;
      } else if main.beg == frag.end {
        main := main.(beg := frag.beg);
        deleteit := true;
      } else if main.beg <= frag.beg && main.end >= frag.end {
        deleteit := true;
      }
    }
  }

  /** A buffer that is given all fragments of fs, and what it reported last. */
  method AddAll(fs: seq<Region>) returns (buffer: ReassemblyBuffer, complete: bool)
    ensures buffer.Buf() == Run(fs) && (complete <==> Complete(Run(fs)))
  {
    hide Add;
    buffer := new ReassemblyBuffer();
    complete := false;
    for i := 0 to |fs|
      invariant fresh(buffer) && buffer.Buf() == Run(fs[..i]) && (complete <==> Complete(Run(fs[..i])))
    {
      assert fs[..i + 1][..i] == fs[..i];
      complete := buffer.AddFragment(fs[i].beg, fs[i].end, fs[i].last);
    }
    assert fs[..|fs|] == fs;
  }

  /* ---------- what every run keeps ---------- */

  ghost predicate Covers(f: Region, o: nat) {
    f.beg <= o < f.end
  }

  /** Offset o lies in a received fragment that ends by e. */
  ghost predicate CoveredBy(rs: set<Region>, e: nat, o: nat) {
    exists f :: f in rs && Covers(f, o) && f.end <= e
  }

  ghost predicate WellFormed(rs: set<Region>) {
    forall f :: f in rs ==> f.beg <= f.end
  }

  /**
   The main range starts at 0 and holds only offsets of received fragments rs that end inside
   it, and of a received fragment beyond the main range nothing is lost.
   */
  ghost predicate Sound(b: Buffer, rs: set<Region>) {
    && b.main.beg == 0
    && (forall f :: f in b.stored ==> f in rs)
    && (forall o :: 0 <= o < b.main.end ==> CoveredBy(rs, b.main.end, o))
    && (b.main.last ==> exists f :: f in rs && f.last && f.end <= b.main.end)
    && (forall f :: f in rs ==> f.end <= b.main.end || f.beg < b.main.end || f in b.stored)
  }

  ghost predicate Settled(b: Buffer) {
    forall f :: f in b.stored ==> !Joins(b.main, f)
  }

  /** Any two fragments are the same or disjoint, and none is empty. */
  ghost predicate Family(rs: set<Region>) {
    && (forall f :: f in rs ==> f.beg < f.end)
    && (forall f, g :: f in rs && g in rs ==> f == g || f.end <= g.beg || g.end <= f.beg)
  }

  /** The end mark of a received fragment inside the main range was seen. */
  ghost predicate Marked(m: Region, rs: set<Region>) {
    forall f :: f in rs && f.last && f.end <= m.end ==> m.last
  }

  /** In a family no fragment lies on both sides of the end of the main range. */
  lemma NoStraddle(b: Buffer, rs: set<Region>, f: Region)
    requires Sound(b, rs) && Family(rs + {f})
    ensures f.end <= b.main.end || b.main.end <= f.beg
  {
    if f.beg < b.main.end {
      var o := b.main.end - 1;
      assert CoveredBy(rs, b.main.end, o);
      var g :| g in rs && Covers(g, o) && g.end <= b.main.end;
      assert g in rs + {f} && f in rs + {f};
    }
  }

  /** Taking a received fragment into the main range: only its offsets come in, nothing goes out. */
  lemma ExtendSound(m: Region, f: Region, stored: seq<Region>, stored': seq<Region>, rs: set<Region>)
    requires WellFormed(rs) && f in rs && Joins(m, f) && Sound(Buffer(m, stored), rs)
    requires forall g :: g in stored' ==> g in stored
    requires forall g :: g in stored && g != f ==> g in stored'
    ensures Sound(Buffer(Extend(m, f), stored'), rs) && m.end <= Extend(m, f).end
    ensures Family(rs) && Marked(m, rs) ==> Marked(Extend(m, f), rs)
  {
    var m' := Extend(m, f);
    forall o | 0 <= o < m'.end
      ensures CoveredBy(rs, m'.end, o)
    {
      if o < m.end {
        assert CoveredBy(rs, m.end, o);
        var g :| g in rs && Covers(g, o) && g.end <= m.end;
      } else {
        assert Covers(f, o);
      }
    }
    if Family(rs) {
      forall g | g in rs && m.end < g.end
        ensures m.end <= g.beg
      {
        assert rs + {g} == rs;
        NoStraddle(Buffer(m, stored), rs, g);
      }
    }
  }

  /** One pass, with the fragments kept so far in front. */
  lemma {:induction false} PassSound(b: Buffer, kept: seq<Region>, rs: set<Region>)
    requires WellFormed(rs) && Sound(Buffer(b.main, kept + b.stored), rs)
    ensures Sound(Buffer(Pass(b).main, kept + Pass(b).stored), rs) && b.main.end <= Pass(b).main.end
    ensures Family(rs) && Marked(b.main, rs) ==> Marked(Pass(b).main, rs)
    decreases |b.stored|
  {
    if b.stored != [] {
      var f, rest := b.stored[0], b.stored[1..];
      assert f in kept + b.stored && f in rs;
      assert kept + b.stored == kept + [f] + rest;
      hide Sound, Family, Marked, Joins, Extend;
      if Joins(b.main, f) {
        ExtendSound(b.main, f, kept + b.stored, kept + rest, rs);
        PassSound(Buffer(Extend(b.main, f), rest), kept, rs);
      } else {
        PassSound(Buffer(b.main, rest), kept + [f], rs);
        assert kept + Pass(b).stored == kept + [f] + Pass(Buffer(b.main, rest)).stored;
      }
    }
  }

  lemma {:induction false} PassQuiet(b: Buffer)
    requires |Pass(b).stored| == |b.stored|
    ensures Pass(b) == b && Settled(b)
    decreases |b.stored|
  {
    if b.stored != [] {
      assert !Joins(b.main, b.stored[0]);
      PassQuiet(Buffer(b.main, b.stored[1..]));
    }
  }

  lemma {:induction false} SettleSound(b: Buffer, rs: set<Region>)
    requires WellFormed(rs) && Sound(b, rs)
    ensures Sound(Settle(b), rs) && Settled(Settle(b)) && b.main.end <= Settle(b).main.end
    ensures Family(rs) && Marked(b.main, rs) ==> Marked(Settle(b).main, rs)
    decreases |b.stored|
  {
    assert [] + b.stored == b.stored && [] + Pass(b).stored == Pass(b).stored;
    PassSound(b, [], rs);
    if |Pass(b).stored| == |b.stored| {
      PassQuiet(b);
    } else {
      SettleSound(Pass(b), rs);
    }
  }

  /** A new fragment that is put aside or dropped changes nothing that was known. */
  lemma StoreSound(b: Buffer, f: Region, rs: set<Region>)
    requires WellFormed(rs + {f}) && Sound(b, rs)
    ensures Sound(Buffer(b.main, b.stored + [f]), rs + {f})
    ensures f.beg < b.main.end ==> Sound(b, rs + {f})
  {
    forall o | 0 <= o < b.main.end
      ensures CoveredBy(rs + {f}, b.main.end, o)
    {
      assert CoveredBy(rs, b.main.end, o);
    }
  }

  lemma AddSound(b: Buffer, f: Region, rs: set<Region>)
    requires WellFormed(rs + {f}) && Sound(b, rs) && Settled(b)
    ensures Sound(Add(b, f), rs + {f}) && Settled(Add(b, f)) && b.main.end <= Add(b, f).main.end
    ensures Family(rs + {f}) && Marked(b.main, rs) ==> Marked(Add(b, f).main, rs + {f})
  {
    var rs' := rs + {f};
    StoreSound(b, f, rs);
    assert f in rs';
    hide Settle, CoveredBy;
    if b.main.end == f.beg || b.main.beg == f.end {
      ExtendSound(b.main, f, b.stored + [f], b.stored, rs');
      if Family(rs') && Marked(b.main, rs) {
        NoStraddle(b, rs, f);
        assert Marked(b.main, rs');
      }
      SettleSound(Buffer(Extend(b.main, f), b.stored), rs');
    } else if f.beg < b.main.end && Family(rs') && Marked(b.main, rs) {
      DuplicateInside(b, f, rs);
    }
  }

  /** In a family a fragment inside the main range is a duplicate. */
  lemma DuplicateInside(b: Buffer, f: Region, rs: set<Region>)
    requires Sound(b, rs) && Family(rs + {f}) && f.beg < b.main.end
    ensures f in rs && f.end <= b.main.end
  {
    assert CoveredBy(rs, b.main.end, f.beg);
    var g :| g in rs && Covers(g, f.beg) && g.end <= b.main.end;
    assert g in rs + {f} && f in rs + {f};
  }

  ghost function Received(fs: seq<Region>): set<Region> {
    set f | f in fs
  }

  /** After any sequence of fragments, overlapping or not. */
  lemma {:induction false} RunSound(fs: seq<Region>)
    requires WellFormed(Received(fs))
    ensures Sound(Run(fs), Received(fs)) && Settled(Run(fs))
    ensures fs != [] ==> Run(fs[..|fs| - 1]).main.end <= Run(fs).main.end
    ensures Family(Received(fs)) ==> Marked(Run(fs).main, Received(fs))
  {
    if fs != [] {
      var n := |fs| - 1;
      assert Received(fs) == Received(fs[..n]) + {fs[n]};
      RunSound(fs[..n]);
      AddSound(Run(fs[..n]), fs[n], Received(fs[..n]));
    }
  }

  lemma EndsAtGap(fs: seq<Region>, f: Region)
    requires Family(Received(fs)) && f in fs
    ensures !Covers(f, Run(fs).main.end)
  {
    hide Run;
    RunSound(fs);
    assert f in Received(fs);
    assert Received(fs) + {f} == Received(fs);
    NoStraddle(Run(fs), Received(fs), f);
  }

  ghost predicate Got(fs: seq<Region>, o: nat) {
    exists g :: g in fs && Covers(g, o)
  }

  /** All offsets up to the end of a fragment marked as last have been received. */
  ghost predicate AllArrived(fs: seq<Region>) {
    exists f :: f in fs && f.last && forall o :: 0 <= o < f.end ==> Got(fs, o)
  }

  /** Even with overlaps, completion is never reported before everything up to a last fragment has arrived. */
  lemma CompleteSound(fs: seq<Region>)
    requires WellFormed(Received(fs)) && Complete(Run(fs))
    ensures AllArrived(fs)
  {
    var b, rs := Run(fs), Received(fs);
    RunSound(fs);
    hide Run;
    var f :| f in rs && f.last && f.end <= b.main.end;
    forall o | 0 <= o < f.end
      ensures Got(fs, o)
    {
      assert CoveredBy(rs, b.main.end, o);
    }
  }

  /** Without overlaps, it is reported exactly then. */
  lemma CompleteExactly(fs: seq<Region>)
    requires Family(Received(fs))
    ensures Complete(Run(fs)) <==> AllArrived(fs)
  {
    var b, rs := Run(fs), Received(fs);
    RunSound(fs);
    if Complete(b) {
      CompleteSound(fs);
    }
    if AllArrived(fs) {
      var f :| f in fs && f.last && forall o :: 0 <= o < f.end ==> Got(fs, o);
      assert f in rs;
      if b.main.end < f.end {
        assert Got(fs, b.main.end);
        var g :| g in fs && Covers(g, b.main.end);
        EndsAtGap(fs, g);
      }
    }
  }

  /* ---------- the pieces of one datagram ---------- */

  /** Offsets 0 = cuts[0] < cuts[1] < ... that divide a datagram of that many bytes. */
  ghost predicate IsPartition(cuts: seq<nat>) {
    |cuts| >= 2 && cuts[0] == 0 && forall i, j :: 0 <= i < j < |cuts| ==> cuts[i] < cuts[j]
  }

  ghost function Piece(cuts: seq<nat>, i: nat): Region
    requires i + 1 < |cuts|
  {
    Region(cuts[i], cuts[i + 1], i + 2 == |cuts|)
  }

  ghost predicate IsPiece(cuts: seq<nat>, f: Region) {
    exists i: nat :: i + 1 < |cuts| && f == Piece(cuts, i)
  }

  ghost predicate EveryPieceIn(cuts: seq<nat>, fs: seq<Region>) {
    forall i: nat :: i + 1 < |cuts| ==> Piece(cuts, i) in fs
  }

  lemma PiecesAreFamily(cuts: seq<nat>, fs: seq<Region>)
    requires IsPartition(cuts) && forall f :: f in fs ==> IsPiece(cuts, f)
    ensures Family(Received(fs))
  {
    forall f, g | f in Received(fs) && g in Received(fs)
      ensures f.beg < f.end && (f == g || f.end <= g.beg || g.end <= f.beg)
    {
      assert IsPiece(cuts, f) && IsPiece(cuts, g);
      var i: nat :| i + 1 < |cuts| && f == Piece(cuts, i);
      var j: nat :| j + 1 < |cuts| && g == Piece(cuts, j);
    }
  }

  /** Only piece i itself covers an offset of piece i. */
  lemma OnlyPiece(cuts: seq<nat>, f: Region, i: nat)
    requires IsPartition(cuts) && IsPiece(cuts, f) && i + 1 < |cuts| && Covers(f, cuts[i])
    ensures f == Piece(cuts, i)
  {
    var j: nat :| j + 1 < |cuts| && f == Piece(cuts, j);
  }

  lemma PieceEnds(cuts: seq<nat>, f: Region)
    requires IsPartition(cuts) && IsPiece(cuts, f)
    ensures 0 < f.end <= cuts[|cuts| - 1] && (f.last ==> f.end == cuts[|cuts| - 1])
  {
  }

  /** No end of a piece lies beyond the datagram; the main range of a complete buffer reaches it. */
  lemma ReportedLength(cuts: seq<nat>, fs: seq<Region>)
    requires IsPartition(cuts) && forall f :: f in fs ==> IsPiece(cuts, f)
    ensures Complete(Run(fs)) ==> Run(fs).main.end == cuts[|cuts| - 1]
  {
    var b, n := Run(fs), cuts[|cuts| - 1];
    PiecesAreFamily(cuts, fs);
    RunSound(fs);
    hide Run, Settled, Family, Marked, IsPartition, IsPiece;
    if b.main.end > 0 {
      assert CoveredBy(Received(fs), b.main.end, b.main.end - 1);
      var g :| g in Received(fs) && Covers(g, b.main.end - 1) && g.end <= b.main.end;
      PieceEnds(cuts, g);
    }
    if Complete(b) {
      var f :| f in Received(fs) && f.last && f.end <= b.main.end;
      PieceEnds(cuts, f);
    }
  }

  /**
   The pieces of one datagram, in any order and with any duplicates: reassembly completes
   exactly when every piece has arrived, and the reported length is then that of the datagram.
   */
  lemma ReassemblyCorrect(cuts: seq<nat>, fs: seq<Region>)
    requires IsPartition(cuts) && forall f :: f in fs ==> IsPiece(cuts, f)
    ensures Complete(Run(fs)) <==> EveryPieceIn(cuts, fs)
    ensures Complete(Run(fs)) ==> Run(fs).main.end == cuts[|cuts| - 1]
  {
    hide Run;
    PiecesAreFamily(cuts, fs);
    CompleteExactly(fs);
    ReportedLength(cuts, fs);
    if EveryPieceIn(cuts, fs) {
      var f := Piece(cuts, |cuts| - 2);
      forall o | 0 <= o < f.end
        ensures Got(fs, o)
      {
        var i := PieceOf(cuts, o);
        assert Covers(Piece(cuts, i), o);
      }
    }
    if Complete(Run(fs)) {
      var f :| f in fs && f.last && forall o :: 0 <= o < f.end ==> Got(fs, o);
      assert IsPiece(cuts, f);
      assert f.end == cuts[|cuts| - 1];
      forall i: nat | i + 1 < |cuts|
        ensures Piece(cuts, i) in fs
      {
        assert Got(fs, cuts[i]);
        var g :| g in fs && Covers(g, cuts[i]);
        OnlyPiece(cuts, g, i);
      }
    }
  }

  lemma PieceOf(cuts: seq<nat>, o: nat) returns (i: nat)
    requires IsPartition(cuts) && o < cuts[|cuts| - 1]
    ensures i + 1 < |cuts| && cuts[i] <= o < cuts[i + 1]
  {
    i := 0;
    while cuts[i + 1] <= o
      invariant i + 1 < |cuts| && cuts[i] <= o
      decreases |cuts| - i
    {
      i := i + 1;
    }
  }

  /** Overlapping fragments are not put together: the second of these, which brings the rest, is dropped. */
  lemma OverlapIsLost()
    ensures var fs := [Region(0, 10, false), Region(5, 15, true)];
      AllArrived(fs) && WellFormed(Received(fs)) && !Complete(Run(fs))
  {
    var f0, f1 := Region(0, 10, false), Region(5, 15, true);
    var fs := [f0, f1];
    assert fs[..1] == [f0] && [f0][..0] == [];
    assert Run([f0]) == Add(EMPTY, f0);
    assert Run(fs) == Add(Run([f0]), f1);
    forall o | 0 <= o < 15
      ensures Got(fs, o)
    {
      assert f0 in fs && f1 in fs;
      assert Covers(f0, o) || Covers(f1, o);
    }
  }
}
