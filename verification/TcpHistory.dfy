/** The state of a TCP connection, read off the history of its events. */
module TcpHistory {
  import opened Common
  import opened TcpConnection

  /* ---------- histories ---------- */

  /** The event that came first of those in s. */
  function First(es: seq<Event>, s: set<Event>): Option<Event> {
    if es == [] then None
    else
      var r := First(es[..|es| - 1], s);
      if r.Some? then r else if es[|es| - 1] in s then Some(es[|es| - 1]) else None
  }

  /** What came after the first e. */
  function Since(es: seq<Event>, e: Event): seq<Event> {
    if es == [] || e !in es[..|es| - 1] then [] else Since(es[..|es| - 1], e) + [es[|es| - 1]]
  }

  lemma {:induction false} FirstIs(es: seq<Event>, s: set<Event>)
    ensures First(es, s).None? <==> forall e :: e in es ==> e !in s
    ensures First(es, s).Some? ==>
      exists i :: 0 <= i < |es| && First(es, s) == Some(es[i]) && es[i] in s && forall j :: 0 <= j < i ==> es[j] !in s
  {
    if es != [] {
      var before := es[..|es| - 1];
      FirstIs(before, s);
      assert es == before + [es[|es| - 1]];
    }
  }

  lemma {:induction false} SinceIs(es: seq<Event>, e: Event, i: nat)
    requires i < |es| && es[i] == e && e !in es[..i]
    ensures Since(es, e) == es[i + 1..]
  {
    var n := |es| - 1;
    if i < n {
      var before := es[..n];
      assert before[..i] == es[..i] && e in before;
      SinceIs(before, e, i);
      assert before[i + 1..] + [es[n]] == es[i + 1..];
    }
  }

  lemma FirstMore(es: seq<Event>, e: Event, s: set<Event>)
    ensures First(es + [e], s) == if First(es, s).Some? then First(es, s) else if e in s then Some(e) else None
  {
    assert (es + [e])[..|es|] == es;
  }

  lemma SinceMore(es: seq<Event>, last: Event, e: Event)
    ensures Since(es + [last], e) == if e in es then Since(es, e) + [last] else []
  {
    assert (es + [last])[..|es|] == es;
  }

  lemma AfterMore(s: State, es: seq<Event>, e: Event, worker: bool, active: bool)
    ensures After(s, es + [e], worker, active) == Next(After(s, es, worker, active), e, worker, active)
  {
    assert (es + [e])[..|es|] == es;
  }

  lemma {:induction false} AfterBoth(s: State, es: seq<Event>, fs: seq<Event>, worker: bool, active: bool)
    ensures After(s, es + fs, worker, active) == After(After(s, es, worker, active), fs, worker, active)
    decreases |fs|
  {
    hide Next;
    if fs == [] {
      assert es + fs == es;
    } else {
      var n := |fs| - 1;
      AfterBoth(s, es, fs[..n], worker, active);
      assert es + fs == es + fs[..n] + [fs[n]] && fs == fs[..n] + [fs[n]];
      AfterMore(s, es + fs[..n], fs[n], worker, active);
    }
  }

  /* ---------- closing ---------- */

  /** An abort, a reset or an unexpected SYN ends every connection that is established. */
  predicate Broken(es: seq<Event>) {
    ABORT in es || RCV_RST in es || RCV_UNEXP_SYN in es
  }

  /** The first answer to the own FIN. */
  function Answer(r: seq<Event>): Option<Event> {
    First(r, {RCV_ACK, RCV_FIN, RCV_FIN_ACK})
  }

  /** The own FIN, sent before r, has been acknowledged; an ACK and a FIN at once count as both. */
  predicate Acked(r: seq<Event>) {
    RCV_ACK in r || Answer(r) == Some(RCV_FIN_ACK)
  }

  /** The FIN of the peer has come since the own one. */
  predicate Finned(r: seq<Event>) {
    RCV_FIN in r || Answer(r) == Some(RCV_FIN_ACK)
  }

  /** A timeout that ends the connection. */
  predicate Expires(r: seq<Event>, e: Event) {
    (e == TIMEOUT_FIN_WAIT_2 && Acked(r) && !Finned(r)) || (e == TIMEOUT_2MSL && Acked(r) && Finned(r))
  }

  predicate TimedOut(r: seq<Event>) {
    exists i :: 0 <= i < |r| && Expires(r[..i], r[i])
  }

  lemma TimedOutMore(r: seq<Event>, e: Event)
    ensures TimedOut(r + [e]) <==> TimedOut(r) || Expires(r, e)
  {
    hide Expires;
    var r' := r + [e];
    assert r'[..|r|] == r && forall i :: 0 <= i < |r| ==> r'[..i] == r[..i];
    if TimedOut(r) {
      var i :| 0 <= i < |r| && Expires(r[..i], r[i]);
      assert Expires(r'[..i], r'[i]);
    }
    if Expires(r, e) {
      assert Expires(r'[..|r|], r'[|r|]);
    }
  }

  /** Whether this side or the peer has closed first. */
  function FirstClose(es: seq<Event>): Option<Event> {
    First(es, {CLOSE, RCV_FIN})
  }

  /** The connection, established before es, is closed. */
  predicate IsOver(es: seq<Event>) {
    || Broken(es)
    || (FirstClose(es) == Some(RCV_FIN) && RCV_ACK in Since(es, CLOSE))
    || (FirstClose(es) == Some(CLOSE) && TimedOut(Since(es, CLOSE)))
  }

  /**
   The state of a connection that was established, from what its history tells: whether it is over, who has
   closed first, whether this side has closed, and whether its own FIN was acknowledged and one has come since.
   */
  predicate Says(over: bool, first: Option<Event>, closed: bool, acked: bool, finned: bool, s: State) {
    match s
    case CLOSED => over
    case ESTABLISHED => !over && first == None
    case CLOSE_WAIT => !over && first == Some(RCV_FIN) && !closed
    case LAST_ACK => !over && first == Some(RCV_FIN) && closed
    case FIN_WAIT_1 => !over && first == Some(CLOSE) && !acked && !finned
    case FIN_WAIT_2 => !over && first == Some(CLOSE) && acked && !finned
    case CLOSING => !over && first == Some(CLOSE) && !acked && finned
    case TIME_WAIT => !over && first == Some(CLOSE) && acked && finned
    case _ => false
  }

  predicate Tells(es: seq<Event>, s: State) {
    var r := Since(es, CLOSE);
    Says(IsOver(es), FirstClose(es), CLOSE in es, Acked(r), Finned(r), s)
  }

  lemma FirstCloseMore(es: seq<Event>, e: Event)
    ensures FirstClose(es + [e]) ==
      if FirstClose(es).Some? then FirstClose(es) else if e in {CLOSE, RCV_FIN} then Some(e) else None
    ensures FirstClose(es) == None ==> CLOSE !in es && RCV_FIN !in es
    ensures FirstClose(es) == Some(CLOSE) ==> CLOSE in es
  {
    FirstMore(es, e, {CLOSE, RCV_FIN});
    FirstIs(es, {CLOSE, RCV_FIN});
  }

  lemma BrokenMore(es: seq<Event>, e: Event)
    ensures Broken(es + [e]) <==> Broken(es) || e in {ABORT, RCV_RST, RCV_UNEXP_SYN}
  {
  }

  /** What one more event says about the answers to the own FIN. */
  lemma AnswersMore(r: seq<Event>, e: Event)
    ensures var both := e == RCV_FIN_ACK && !Acked(r) && !Finned(r);
      && (Acked(r + [e]) <==> Acked(r) || e == RCV_ACK || both)
      && (Finned(r + [e]) <==> Finned(r) || e == RCV_FIN || both)
  {
    FirstMore(r, e, {RCV_ACK, RCV_FIN, RCV_FIN_ACK});
    FirstIs(r, {RCV_ACK, RCV_FIN, RCV_FIN_ACK});
  }

  lemma NoAnswers()
    ensures !Acked([]) && !Finned([]) && !TimedOut([])
  {
  }

  lemma OverMore(es: seq<Event>, e: Event)
    ensures IsOver(es + [e]) <==>
      || IsOver(es) || e in {ABORT, RCV_RST, RCV_UNEXP_SYN}
      || (FirstClose(es) == Some(RCV_FIN) && CLOSE in es && e == RCV_ACK)
      || (FirstClose(es) == Some(CLOSE) && Expires(Since(es, CLOSE), e))
  {
    var r := Since(es, CLOSE);
    FirstCloseMore(es, e);
    BrokenMore(es, e);
    SinceMore(es, e, CLOSE);
    assert CLOSE !in es ==> r == [];
    TimedOutMore(r, e);
    NoAnswers();
    hide Broken, FirstClose, TimedOut, Since, Expires, Acked, Finned;
  }

  /** The state diagram on what the history tells. */
  lemma SaysMore(over: bool, first: Option<Event>, closed: bool, acked: bool, finned: bool, s: State, e: Event,
                 over': bool, first': Option<Event>, closed': bool, acked': bool, finned': bool,
                 worker: bool, active: bool)
    requires Says(over, first, closed, acked, finned, s)
    requires first' == if first.Some? then first else if e in {CLOSE, RCV_FIN} then Some(e) else None
    requires over' <==>
      || over || e in {ABORT, RCV_RST, RCV_UNEXP_SYN} || (first == Some(RCV_FIN) && closed && e == RCV_ACK)
      || (first == Some(CLOSE) && acked && e == if finned then TIMEOUT_2MSL else TIMEOUT_FIN_WAIT_2)
    requires (closed' <==> closed || e == CLOSE) && (first == None ==> !closed)
    requires first == Some(CLOSE) ==>
      var both := e == RCV_FIN_ACK && !acked && !finned;
      (acked' <==> acked || e == RCV_ACK || both) && (finned' <==> finned || e == RCV_FIN || both)
    requires first == None && e == CLOSE ==> !acked' && !finned'
    ensures Says(over', first', closed', acked', finned', Next(s, e, worker, active))
  {
    match s
    case CLOSED =>
    case ESTABLISHED =>
    case CLOSE_WAIT =>
    case LAST_ACK =>
    case FIN_WAIT_1 =>
    case FIN_WAIT_2 =>
    case CLOSING =>
    case TIME_WAIT =>
  }

  lemma ClosingStep(es: seq<Event>, e: Event, s: State, worker: bool, active: bool)
    requires Tells(es, s)
    ensures Tells(es + [e], Next(s, e, worker, active))
  {
    hide Says, Next, First;
    var r, r' := Since(es, CLOSE), Since(es + [e], CLOSE);
    FirstCloseMore(es, e);
    OverMore(es, e);
    SinceMore(es, e, CLOSE);
    AnswersMore(r, e);
    NoAnswers();
    hide IsOver, FirstClose, Since, Acked, Finned;
    SaysMore(IsOver(es), FirstClose(es), CLOSE in es, Acked(r), Finned(r), s, e, IsOver(es + [e]), FirstClose(es + [e]),
             CLOSE in es + [e], Acked(r'), Finned(r'), worker, active);
  }

  /** No history tells two states. */
  lemma TellsOne(es: seq<Event>, s: State, s': State)
    requires Tells(es, s) && Tells(es, s')
    ensures s == s'
  {
  }

  /**
   An established connection is in the state that its history tells: which side has closed first, and
   what has come since this side has closed.
   */
  lemma {:induction false} ClosingHistory(es: seq<Event>, worker: bool, active: bool, s: State)
    ensures After(ESTABLISHED, es, worker, active) == s <==> Tells(es, s)
  {
    var s' := After(ESTABLISHED, es, worker, active);
    if es != [] {
      var n := |es| - 1;
      var before := After(ESTABLISHED, es[..n], worker, active);
      ClosingHistory(es[..n], worker, active, before);
      hide Tells, Next;
      ClosingStep(es[..n], es[n], before, worker, active);
      assert es[..n] + [es[n]] == es;
    }
    assert Tells(es, s');
    hide Tells, Next;
    if Tells(es, s) {
      TellsOne(es, s, s');
    }
  }

  /* ---------- opening ---------- */

  /** What has come from the first open call on. */
  function Opening(es: seq<Event>): seq<Event> {
    if es == [] then []
    else
      var o := Opening(es[..|es| - 1]);
      if o != [] || es[|es| - 1] in {OPEN_PASSIVE, OPEN_ACTIVE} then o + [es[|es| - 1]] else []
  }

  /** What has come after the last reset or timeout of an attempt to connect. */
  function Attempt(o: seq<Event>): seq<Event> {
    if o == [] || o[|o| - 1] in {RCV_RST, TIMEOUT_CONN_ESTAB} then [] else Attempt(o[..|o| - 1]) + [o[|o| - 1]]
  }

  /** The peer has called. */
  predicate SynCame(q: seq<Event>) {
    RCV_SYN in q
  }

  /** This side has called. */
  predicate SynSent(q: seq<Event>) {
    OPEN_ACTIVE in q || SEND in q
  }

  /** e ends the opening, whose events are o so far. */
  predicate Ends(o: seq<Event>, e: Event, worker: bool, active: bool) {
    var q := Attempt(o);
    && o != []
    && (|| e in {CLOSE, ABORT}
        || (if SynCame(q) then
              e in {RCV_ACK, RCV_FIN, RCV_UNEXP_SYN}
              || ((worker || active) && e in {RCV_RST, TIMEOUT_CONN_ESTAB})
            else SynSent(q) && e in {RCV_SYN_ACK, RCV_RST, TIMEOUT_CONN_ESTAB}))
  }

  ghost predicate StillOpening(es: seq<Event>, worker: bool, active: bool) {
    forall i :: 0 <= i < |es| ==> !Ends(Opening(es[..i]), es[i], worker, active)
  }

  /** e completes the handshake: an ACK if the peer has called, a SYN-ACK if only this side has. */
  predicate Completes(o: seq<Event>, e: Event) {
    var q := Attempt(o);
    o != [] && if SynCame(q) then e == RCV_ACK else SynSent(q) && e == RCV_SYN_ACK
  }

  /** If the peer has called, either side may close before the handshake is complete. */
  predicate ClosesEarly(o: seq<Event>, e: Event) {
    o != [] && SynCame(Attempt(o)) && e in {CLOSE, RCV_FIN}
  }

  lemma OpeningMore(es: seq<Event>, e: Event)
    ensures Opening(es + [e]) ==
      if Opening(es) != [] || e in {OPEN_PASSIVE, OPEN_ACTIVE} then Opening(es) + [e] else []
  {
    assert (es + [e])[..|es|] == es;
  }

  lemma AttemptMore(o: seq<Event>, e: Event)
    ensures var q, q', reset := Attempt(o), Attempt(o + [e]), e in {RCV_RST, TIMEOUT_CONN_ESTAB};
      && (SynCame(q') <==> !reset && (SynCame(q) || e == RCV_SYN))
      && (SynSent(q') <==> !reset && (SynSent(q) || e in {OPEN_ACTIVE, SEND}))
    ensures !SynCame(Attempt([])) && !SynSent(Attempt([]))
  {
    assert (o + [e])[..|o|] == o;
  }

  /** The state that an opening with the events o has come to. */
  function Opened(o: seq<Event>): State {
    var q := Attempt(o);
    if o == [] then INIT else if SynCame(q) then SYN_RCVD else if SynSent(q) then SYN_SENT else LISTEN
  }

  lemma OpeningStep(o: seq<Event>, o': seq<Event>, e: Event, worker: bool, active: bool)
    requires o' == if o != [] || e in {OPEN_PASSIVE, OPEN_ACTIVE} then o + [e] else []
    ensures var s := Next(Opened(o), e, worker, active);
      if !Ends(o, e, worker, active) then s == Opened(o')
      else if Completes(o, e) then s == ESTABLISHED
      else if ClosesEarly(o, e) then s == (if e == CLOSE then FIN_WAIT_1 else CLOSE_WAIT)
      else s == CLOSED
  {
    AttemptMore(o, e);
    hide Attempt, SynCame, SynSent;
    assert o == [] ==> [] + [e] == [e];
  }

  lemma OpeningPrefix(es: seq<Event>, worker: bool, active: bool)
    requires StillOpening(es, worker, active) && es != []
    ensures var n := |es| - 1;
      StillOpening(es[..n], worker, active) && !Ends(Opening(es[..n]), es[n], worker, active)
  {
    hide Ends, Opening;
    var before := es[..|es| - 1];
    assert forall i :: 0 <= i < |before| ==> before[..i] == es[..i];
  }

  lemma {:induction false} OpeningHistory(es: seq<Event>, worker: bool, active: bool)
    requires StillOpening(es, worker, active)
    ensures After(INIT, es, worker, active) == Opened(Opening(es))
  {
    if es != [] {
      hide Next, Ends, Opened;
      var n := |es| - 1;
      var before := es[..n];
      OpeningPrefix(es, worker, active);
      hide StillOpening;
      OpeningHistory(before, worker, active);
      OpeningMore(before, es[n]);
      assert es == before + [es[n]];
      hide Opening;
      OpeningStep(Opening(before), Opening(es), es[n], worker, active);
    }
  }

  /** Event number i ends the opening. */
  ghost predicate EndsAt(es: seq<Event>, i: nat, worker: bool, active: bool) {
    i < |es| && StillOpening(es[..i], worker, active) && Ends(Opening(es[..i]), es[i], worker, active)
  }

  /** The opening is not over, or some event has ended it. */
  lemma {:induction false} OpeningEnds(es: seq<Event>, worker: bool, active: bool)
    ensures StillOpening(es, worker, active) <==> forall i: nat :: !EndsAt(es, i, worker, active)
  {
    hide Ends, Opening;
    if !StillOpening(es, worker, active) {
      var i :| 0 <= i < |es| && Ends(Opening(es[..i]), es[i], worker, active);
      if StillOpening(es[..i], worker, active) {
        assert EndsAt(es, i, worker, active);
      } else {
        OpeningEnds(es[..i], worker, active);
        var j: nat :| EndsAt(es[..i], j, worker, active);
        assert es[..i][..j] == es[..j];
        assert EndsAt(es, j, worker, active);
      }
    }
  }

  lemma {:induction false} ClosedForever(es: seq<Event>, worker: bool, active: bool)
    ensures After(CLOSED, es, worker, active) == CLOSED
  {
    if es != [] {
      ClosedForever(es[..|es| - 1], worker, active);
    }
  }

  /** The event that ends the opening. */
  lemma LastOpening(es: seq<Event>, e: Event, worker: bool, active: bool)
    requires StillOpening(es, worker, active) && Ends(Opening(es), e, worker, active)
    ensures var s, o := After(INIT, es + [e], worker, active), Opening(es);
      if Completes(o, e) then s == ESTABLISHED
      else if ClosesEarly(o, e) then s == After(ESTABLISHED, [e], worker, active)
      else s == CLOSED
  {
    OpeningHistory(es, worker, active);
    OpeningMore(es, e);
    AfterMore(INIT, es, e, worker, active);
    EarlyClose(worker, active);
    hide Next, After, Opening, Ends, Opened, StillOpening;
    OpeningStep(Opening(es), Opening(es + [e]), e, worker, active);
  }

  lemma EarlyClose(worker: bool, active: bool)
    ensures After(ESTABLISHED, [CLOSE], worker, active) == FIN_WAIT_1
    ensures After(ESTABLISHED, [RCV_FIN], worker, active) == CLOSE_WAIT
  {
    assert [CLOSE][..0] == [] && [RCV_FIN][..0] == [];
  }

  /** How the connection goes on when event number i has ended the opening. */
  lemma AfterOpening(es: seq<Event>, i: nat, worker: bool, active: bool)
    requires EndsAt(es, i, worker, active)
    ensures var s, o := After(INIT, es, worker, active), Opening(es[..i]);
      if Completes(o, es[i]) then s == After(ESTABLISHED, es[i + 1..], worker, active)
      else if ClosesEarly(o, es[i]) then s == After(ESTABLISHED, es[i..], worker, active)
      else s == CLOSED
  {
    hide Next, After, Opening, Ends, Opened, StillOpening, Completes, ClosesEarly;
    var before, e, rest := es[..i], es[i], es[i + 1..];
    LastOpening(before, e, worker, active);
    AfterBoth(INIT, before + [e], rest, worker, active);
    AfterBoth(ESTABLISHED, [e], rest, worker, active);
    ClosedForever(rest, worker, active);
    assert before + [e] + rest == es && es[i..] == [e] + rest;
  }

  /** The state that the whole history of a connection tells, from its creation on. */
  ghost predicate TellsAll(es: seq<Event>, s: State, worker: bool, active: bool) {
    if s in {INIT, LISTEN, SYN_SENT, SYN_RCVD} then StillOpening(es, worker, active) && s == Opened(Opening(es))
    else exists i: nat :: EndsAt(es, i, worker, active) && TellsFrom(es, i, s)
  }

  predicate TellsFrom(es: seq<Event>, i: nat, s: State)
    requires i < |es|
  {
    var o := Opening(es[..i]);
    if Completes(o, es[i]) then Tells(es[i + 1..], s)
    else if ClosesEarly(o, es[i]) then Tells(es[i..], s)
    else s == CLOSED
  }

  lemma FromThere(es: seq<Event>, i: nat, s: State, worker: bool, active: bool)
    requires EndsAt(es, i, worker, active)
    ensures After(INIT, es, worker, active) == s <==> TellsFrom(es, i, s)
  {
    AfterOpening(es, i, worker, active);
    ClosingHistory(es[i + 1..], worker, active, s);
    ClosingHistory(es[i..], worker, active, s);
    hide After, Opening, Tells, Completes, ClosesEarly, EndsAt;
  }

  lemma NotOpening(es: seq<Event>, i: nat, s: State)
    requires i < |es| && TellsFrom(es, i, s)
    ensures s !in {INIT, LISTEN, SYN_SENT, SYN_RCVD}
  {
    hide Opening, Completes, ClosesEarly, IsOver, FirstClose, Acked, Finned, Since;
  }

  /** A connection is in the state that its history tells, and in no other. */
  lemma History(es: seq<Event>, s: State, worker: bool, active: bool)
    ensures After(INIT, es, worker, active) == s <==> TellsAll(es, s, worker, active)
  {
    OpeningEnds(es, worker, active);
    if StillOpening(es, worker, active) {
      OpeningHistory(es, worker, active);
      assert Opened(Opening(es)) in {INIT, LISTEN, SYN_SENT, SYN_RCVD};
      hide StillOpening, Opening, Opened, After, EndsAt, TellsFrom;
    } else {
      hide StillOpening, Opening, Opened, After, EndsAt, TellsFrom;
      forall i: nat | EndsAt(es, i, worker, active)
        ensures i < |es| && (After(INIT, es, worker, active) == s <==> TellsFrom(es, i, s))
        ensures TellsFrom(es, i, s) ==> s !in {INIT, LISTEN, SYN_SENT, SYN_RCVD}
      {
        EndsBelow(es, i, worker, active);
        FromThere(es, i, s, worker, active);
        if TellsFrom(es, i, s) {
          NotOpening(es, i, s);
        }
      }
    }
  }

  lemma EndsBelow(es: seq<Event>, i: nat, worker: bool, active: bool)
    requires EndsAt(es, i, worker, active)
    ensures i < |es|
  {
  }
}
