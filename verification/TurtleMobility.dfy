/**
 The script cursor of the turtle: a resumable interpreter that walks a tree of statements,
 with a stack of loop counters for the repeats around the next statement.
 */
module TurtleMobility {
  import opened Common

  /** A statement that takes dt of simulation time (most take none), or a loop. */
  datatype Stmt =
    | Prim(id: int, dt: real)
    | Repeat(n: int, body: seq<Stmt>)

  /** Finite counts, non-empty bodies and non-negative times; a count of -1 stands for an endless loop. */
  ghost predicate Finite(s: Stmt) {
    match s
    case Prim(_, dt) => dt >= 0.0
    case Repeat(n, b) => n >= 0 && b != [] && forall i :: 0 <= i < |b| ==> Finite(b[i])
  }

  ghost predicate AllFinite(ss: seq<Stmt>) {
    forall i :: 0 <= i < |ss| ==> Finite(ss[i])
  }

  /* ---------- the recursive meaning of a script ---------- */

  ghost function Times<T>(n: nat, s: seq<T>): seq<T> {
    if n == 0 then [] else s + Times(n - 1, s)
  }

  /** The statements executed, in order; a repeat is itself executed once each time it is reached. */
  ghost function Unfold(s: Stmt): (us: seq<Stmt>)
    requires Finite(s)
    ensures us != [] && us[0] == s
    decreases s, 0
  {
    match s
    case Prim(_, _) => [s]
    case Repeat(n, b) => [s] + Times(n, UnfoldAll(b))
  }

  ghost function UnfoldAll(ss: seq<Stmt>): seq<Stmt>
    requires AllFinite(ss)
    decreases ss, 1
  {
    if ss == [] then [] else Unfold(ss[0]) + UnfoldAll(ss[1..])
  }

  lemma {:induction false} TimesFinite(n: nat, us: seq<Stmt>)
    requires AllFinite(us)
    ensures AllFinite(Times(n, us))
  {
    if n > 0 {
      TimesFinite(n - 1, us);
    }
  }

  lemma {:induction false} UnfoldFinite(s: Stmt)
    requires Finite(s)
    ensures AllFinite(Unfold(s))
    decreases s, 0
  {
    if s.Repeat? {
      UnfoldAllFinite(s.body);
      TimesFinite(s.n, UnfoldAll(s.body));
    }
  }

  lemma {:induction false} UnfoldAllFinite(ss: seq<Stmt>)
    requires AllFinite(ss)
    ensures AllFinite(UnfoldAll(ss))
    decreases ss, 1
  {
    if ss != [] {
      UnfoldFinite(ss[0]);
      UnfoldAllFinite(ss[1..]);
    }
  }

  /* ---------- pointers into the script ---------- */

  /** A pointer to an element: the script itself, or a child of an element. */
  datatype Elem = Script(stmts: seq<Stmt>) | Child(parent: Elem, idx: nat)

  function Children(e: Elem): seq<Stmt> {
    match e
    case Script(ss) => ss
    case Child(p, i) =>
      if i < |Children(p)| && Children(p)[i].Repeat? then Children(p)[i].body else []
  }

  predicate Points(e: Elem) {
    e.Child? ==> Points(e.parent) && e.idx < |Children(e.parent)|
  }

  function Tag(e: Elem): Stmt
    requires e.Child? && Points(e)
  {
    Children(e.parent)[e.idx]
  }

  /* ---------- what remains to be done ---------- */

  function Top(s: seq<int>): int
    requires s != []
  {
    s[|s| - 1]
  }

  function Pop(s: seq<int>): seq<int>
    requires s != []
  {
    s[..|s| - 1]
  }

  /** The pointer lies in the script, and inside e there is one positive counter for e and every repeat around it. */
  ghost predicate Inside(e: Elem, loops: seq<int>) {
    match e
    case Script(ss) => AllFinite(ss) && loops == []
    case Child(p, i) =>
      && Points(e) && AllFinite(Children(p)) && Tag(e).Repeat?
      && loops != [] && Top(loops) > 0 && Inside(p, Pop(loops))
  }

  /** Siblings from index i on. */
  ghost function From(p: Elem, i: nat): seq<Stmt>
    requires AllFinite(Children(p)) && i <= |Children(p)|
  {
    UnfoldAll(Children(p)[i..])
  }

  /** What remains when the body of e, running for the last counted time but Top(loops) - 1, has ended. */
  ghost function Around(e: Elem, loops: seq<int>): seq<Stmt>
    requires Inside(e, loops)
  {
    if e.Script? then []
    else
      Times(Top(loops) - 1, UnfoldAll(Tag(e).body)) + From(e.parent, e.idx + 1) + Around(e.parent, Pop(loops))
  }

  /** e is the next statement to be executed. */
  ghost predicate Next(e: Elem, loops: seq<int>) {
    e.Child? && Points(e) && Inside(e.parent, loops)
  }

  ghost function Rest(e: Elem, loops: seq<int>): seq<Stmt>
    requires Next(e, loops)
  {
    ChildrenFinite(e.parent, loops);
    From(e.parent, e.idx) + Around(e.parent, loops)
  }

  lemma ChildrenFinite(e: Elem, loops: seq<int>)
    requires Inside(e, loops)
    ensures AllFinite(Children(e))
  {
    if e.Child? {
      assert Finite(Children(e.parent)[e.idx]);
    }
  }

  /** e has just been executed; if it is a repeat, its counter has been pushed or counted down. */
  ghost predicate Done(e: Elem, loops: seq<int>) {
    && e.Child? && Points(e)
    && if Tag(e).Repeat? then loops != [] && Top(loops) >= 0 && Inside(e.parent, Pop(loops))
      else Inside(e.parent, loops)
  }

  ghost function After(e: Elem, loops: seq<int>): seq<Stmt>
    requires Done(e, loops)
  {
    var outer := if Tag(e).Repeat? then Pop(loops) else loops;
    ChildrenFinite(e.parent, outer);
    assert Finite(Tag(e));
    var body := if Tag(e).Repeat? then Times(Top(loops), UnfoldAll(Tag(e).body)) else [];
    body + From(e.parent, e.idx + 1) + Around(e.parent, outer)
  }

  /** Executing e takes the first statement off what remains. */
  lemma ExecuteStep(e: Elem, loops: seq<int>)
    requires Next(e, loops)
    ensures var loops' := if Tag(e).Repeat? then loops + [Tag(e).n] else loops;
      Done(e, loops') && Rest(e, loops) == [Tag(e)] + After(e, loops')
  {
    hide Around, Times, Inside;
    ChildrenFinite(e.parent, loops);
    var ss := Children(e.parent)[e.idx..];
    assert ss[1..] == Children(e.parent)[e.idx + 1..];
    assert Rest(e, loops) == Unfold(Tag(e)) + From(e.parent, e.idx + 1) + Around(e.parent, loops);
    if Tag(e).Repeat? {
      var loops' := loops + [Tag(e).n];
      assert Pop(loops') == loops && Finite(Tag(e));
      var body := Times(Tag(e).n, UnfoldAll(Tag(e).body));
      assert After(e, loops') == body + From(e.parent, e.idx + 1) + Around(e.parent, loops);
      assert Unfold(Tag(e)) == [Tag(e)] + body;
    }
  }

  lemma EnterBody(e: Elem, loops: seq<int>)
    requires Done(e, loops) && Tag(e).Repeat? && Top(loops) > 0
    ensures Next(Child(e, 0), loops) && Rest(Child(e, 0), loops) == After(e, loops)
  {
    ChildrenFinite(e.parent, Pop(loops));
    assert Finite(Tag(e));
    assert Children(e)[0..] == Tag(e).body;
  }

  /** A repeat counted down to 0 is left: as if it had no body. */
  lemma LeaveRepeat(e: Elem, loops: seq<int>)
    requires Done(e, loops) && Tag(e).Repeat? && Top(loops) == 0
    ensures Inside(e.parent, Pop(loops)) && AllFinite(Children(e.parent))
    ensures After(e, loops) == From(e.parent, e.idx + 1) + Around(e.parent, Pop(loops))
  {
    ChildrenFinite(e.parent, Pop(loops));
  }

  /** The end of the body of p: count down; around again, or p is done. */
  lemma EndBody(p: Elem, loops: seq<int>)
    requires Inside(p, loops) && p.Child?
    ensures var loops' := Pop(loops) + [Top(loops) - 1];
      && Done(p, loops') && Around(p, loops) == After(p, loops')
      && (Top(loops) > 1 ==> Inside(p, loops'))
  {
    assert Pop(Pop(loops) + [Top(loops) - 1]) == Pop(loops);
    ChildrenFinite(p.parent, Pop(loops));
  }

  /** A statement without a body, or whose body is over, is left to the next sibling or to the end of the siblings. */
  lemma MoveOn(e: Elem, loops: seq<int>)
    requires e.Child? && Points(e) && Inside(e.parent, loops)
    ensures AllFinite(Children(e.parent))
    ensures e.idx + 1 < |Children(e.parent)| ==>
      var e' := Child(e.parent, e.idx + 1);
      Next(e', loops) && Rest(e', loops) == From(e.parent, e.idx + 1) + Around(e.parent, loops)
    ensures e.idx + 1 == |Children(e.parent)| ==>
      From(e.parent, e.idx + 1) + Around(e.parent, loops) == Around(e.parent, loops)
    ensures loops == [] <==> e.parent.Script?
    ensures loops == [] ==> Around(e.parent, loops) == []
  {
    ChildrenFinite(e.parent, loops);
  }

  /** The same for the state after execution. */
  lemma AfterPrim(e: Elem, loops: seq<int>)
    requires Done(e, loops) && !Tag(e).Repeat?
    ensures Inside(e.parent, loops) && AllFinite(Children(e.parent))
    ensures After(e, loops) == From(e.parent, e.idx + 1) + Around(e.parent, loops)
  {
    ChildrenFinite(e.parent, loops);
  }

  lemma BodyOf(e: Elem, loops: seq<int>)
    requires Done(e, loops)
    ensures Children(e) == (if Tag(e).Repeat? then Tag(e).body else [])
    ensures Tag(e).Repeat? <==> Children(e) != []
  {
    ChildrenFinite(e.parent, if Tag(e).Repeat? then Pop(loops) else loops);
    assert Finite(Tag(e));
  }

  /* ---------- the interpreter ---------- */

  ghost function Root(e: Elem): seq<Stmt> {
    if e.Script? then e.stmts else Root(e.parent)
  }

  function Dt(s: Stmt): real {
    if s.Prim? then s.dt else 0.0
  }

  function Duration(ss: seq<Stmt>): real {
    if ss == [] then 0.0 else Duration(ss[..|ss| - 1]) + Dt(ss[|ss| - 1])
  }

  /** The statements up to and including the first that takes time. */
  function Burst(rest: seq<Stmt>): seq<Stmt> {
    if rest == [] then [] else [rest[0]] + if Dt(rest[0]) != 0.0 then [] else Burst(rest[1..])
  }

  lemma BurstStep(done: seq<Stmt>, r: seq<Stmt>)
    requires r != []
    ensures done + Burst(r) == done + [r[0]] + if Dt(r[0]) == 0.0 then Burst(r[1..]) else []
  {
    hide Duration;
    var more := if Dt(r[0]) == 0.0 then Burst(r[1..]) else [];
    assert Burst(r) == [r[0]] + more;
    hide Burst;
    assert done + ([r[0]] + more) == done + [r[0]] + more;
  }

  lemma DurationStep(done: seq<Stmt>, s: Stmt)
    ensures Duration(done + [s]) == Duration(done) + Dt(s)
  {
    assert (done + [s])[..|done|] == done;
  }

  function Start(script: seq<Stmt>): Option<Elem> {
    if script == [] then None else Some(Child(Script(script), 0))
  }

  /** What was executed after k resumptions of a script that unfolds to us. */
  ghost function Resumed(us: seq<Stmt>, k: nat): (done: seq<Stmt>)
    ensures done <= us
  {
    if k == 0 then []
    else
      var done := Resumed(us, k - 1);
      BurstPrefix(us[|done|..]);
      PrefixMore(us, done, Burst(us[|done|..]));
      done + Burst(us[|done|..])
  }

  lemma PrefixMore(us: seq<Stmt>, done: seq<Stmt>, more: seq<Stmt>)
    requires done <= us && more <= us[|done|..]
    ensures done + more <= us
  {
  }

  lemma {:induction false} BurstPrefix(r: seq<Stmt>)
    ensures Burst(r) <= r && (r != [] ==> Burst(r) != [])
    ensures forall i :: 0 <= i < |Burst(r)| - 1 ==> Dt(r[i]) == 0.0
    ensures |Burst(r)| < |r| ==> Dt(r[|Burst(r)| - 1]) != 0.0
  {
    if r != [] {
      BurstPrefix(r[1..]);
    }
  }

  /**
   From done to done' and from time to time' is one resumption: no statement but the last one takes time, and
   only a statement that takes time stops it before the script is over.
   */
  ghost predicate UpToPause(done: seq<Stmt>, done': seq<Stmt>, over: bool, time: real, time': real) {
    && done < done' && (forall i :: |done| <= i < |done'| - 1 ==> done'[i].Repeat? || done'[i].dt == 0.0)
    && match done'[|done'| - 1]
       case Prim(_, dt) => time' == time + dt && (over || dt > 0.0)
       case Repeat(_, _) => time' == time && over
  }

  lemma BurstPauses(done: seq<Stmt>, rest: seq<Stmt>, done': seq<Stmt>, over: bool, time: real, time': real)
    requires AllFinite(done + rest) && rest != [] && done' == done + Burst(rest)
    requires (over <==> done' == done + rest) && time' == time + Duration(Burst(rest))
    ensures UpToPause(done, done', over, time, time')
  {
    BurstPrefix(rest);
    var b := Burst(rest);
    assert b != [];
    var n := |b| - 1;
    NoTime(b[..n]);
    assert Finite((done + rest)[|done| + n]) && (done + rest)[|done| + n] == rest[n] == b[n];
    assert done' == done + rest <==> |b| == |rest|;
    assert forall i :: |done| <= i < |done'| - 1 ==> done'[i] == rest[i - |done|];
  }

  lemma {:induction false} NoTime(ss: seq<Stmt>)
    requires forall i :: 0 <= i < |ss| ==> Dt(ss[i]) == 0.0
    ensures Duration(ss) == 0.0
  {
    if ss != [] {
      NoTime(ss[..|ss| - 1]);
    }
  }

  lemma {:induction false} DurationBoth(a: seq<Stmt>, b: seq<Stmt>)
    ensures Duration(a + b) == Duration(a) + Duration(b)
    decreases |b|
  {
    if b == [] {
      assert a + b == a;
    } else {
      var n := |b| - 1;
      DurationBoth(a, b[..n]);
      DurationStep(a + b[..n], b[n]);
      assert a + b == a + b[..n] + [b[n]];
    }
  }

  lemma ResumeMore(us: seq<Stmt>, k: nat)
    requires k > 0
    ensures |Resumed(us, k)| >= |Resumed(us, k - 1)|
    ensures |Resumed(us, k - 1)| < |us| ==> |Resumed(us, k)| > |Resumed(us, k - 1)|
  {
    BurstPrefix(us[|Resumed(us, k - 1)|..]);
  }

  /** One more resumption. */
  lemma ResumeOnce(us: seq<Stmt>, done: seq<Stmt>, rest: seq<Stmt>)
    requires done + rest == us
    ensures forall k: nat :: done == Resumed(us, k) ==> done + Burst(rest) == Resumed(us, k + 1)
  {
    assert us[|done|..] == rest;
  }

  /** Wherever the resumptions pause, the pieces put together are the unfolded script, and it ends. */
  lemma {:induction false} ResumptionsComplete(us: seq<Stmt>, k: nat)
    ensures |Resumed(us, k)| >= k || Resumed(us, k) == us
    ensures k >= |us| ==> Resumed(us, k) == us
  {
    if k > 0 {
      hide Burst, Resumed;
      ResumptionsComplete(us, k - 1);
      ResumeMore(us, k);
    }
  }

  class Turtle {
    const script: seq<Stmt>
    var nextStatement: Option<Elem>
    var loopVars: seq<int>
    var targetTime: real
    var stationary: bool
    ghost var executed: seq<Stmt>

    ghost predicate Positioned()
      reads this
    {
      match nextStatement
      case None => loopVars == []
      case Some(e) => Next(e, loopVars) && Root(e) == script
    }

    ghost function Remaining(): seq<Stmt>
      requires Positioned()
      reads this
    {
      match nextStatement
      case None => []
      case Some(e) => Rest(e, loopVars)
    }

    constructor (script: seq<Stmt>)
      requires AllFinite(script)
      ensures this.script == script && Valid() && executed == [] && nextStatement == Start(script)
      ensures targetTime == 0.0 && !stationary
    {
      this.script := script;
      nextStatement := Start(script);
      loopVars, targetTime, stationary, executed := [], 0.0, false, [];
      new;
      assert script != [] ==> Children(Script(script))[0..] == script;
    }

    /** What was executed and what remains make up the unfolded script. */
    ghost predicate Valid()
      reads this
    {
      AllFinite(script) && Positioned() && executed + Remaining() == UnfoldAll(script)
    }

    method ExecuteStatement(e: Elem)
      requires Next(e, loopVars)
      modifies this`loopVars, this`targetTime
      ensures loopVars == if Tag(e).Repeat? then old(loopVars) + [Tag(e).n] else old(loopVars)
      ensures targetTime == old(targetTime) + Dt(Tag(e))
    {
      match Tag(e) {
        case Repeat(n, _) => loopVars := loopVars + [n];
        case Prim(_, dt) => targetTime := targetTime + dt;
      }
    }

    /** Executes statements until one takes time, or the script ends. */
    method ResumeScript()
      requires Valid()
      modifies this
      ensures Valid()
      ensures executed == old(executed) + Burst(old(Remaining()))
      ensures forall k: nat :: old(executed) == Resumed(UnfoldAll(script), k) ==>
        executed == Resumed(UnfoldAll(script), k + 1)
      ensures old(nextStatement.Some?) ==>
        UpToPause(old(executed), executed, nextStatement.None?, old(targetTime), targetTime)
      ensures targetTime == old(targetTime) + Duration(Burst(old(Remaining())))
      ensures stationary == (old(stationary) || old(nextStatement.None?))
      ensures nextStatement.None? <==> executed == UnfoldAll(script)
      ensures nextStatement.None? ==> loopVars == []
    {
      hide Resumed, UnfoldAll, Rest, Next, AllFinite, UpToPause;
      ResumeOnce(UnfoldAll(script), executed, Remaining());
      EndsWithScript();
      if nextStatement.None? {
        assert Burst([]) == [] && Duration([]) == 0.0;
        stationary := true;
      } else {
        ghost var rest := Remaining();
        UnfoldAllFinite(script);
        Interpret();
        EndsWithScript();
        BurstPauses(old(executed), rest, executed, nextStatement.None?, old(targetTime), targetTime);
      }
    }

    /** The loop of a resumption. */
    method Interpret()
      requires Valid() && nextStatement.Some?
      modifies this
      ensures Valid() && stationary == old(stationary)
      ensures executed == old(executed) + Burst(old(Remaining()))
      ensures targetTime == old(targetTime) + Duration(Burst(old(Remaining())))
    {
      var now := targetTime;
      ghost var rest, done := Remaining(), [];
      assert Burst([]) == [] && [] + Burst(rest) == Burst(rest) && Duration(done) == 0.0;
      hide Rest, UnfoldAll, Next, Duration, Burst;
      while nextStatement.Some? && targetTime == now
        invariant Valid() && stationary == old(stationary)
        invariant executed == old(executed) + done && targetTime == now + Duration(done)
        invariant Burst(rest) == done + if targetTime == now then Burst(Remaining()) else []
        decreases |Remaining()|
      {
        ghost var r := Remaining();
        OneStatement();
        BurstStep(done, r);
        DurationStep(done, r[0]);
        done := done + [r[0]];
      }
      assert done + [] == done;
    }

    /** The cursor is at the end exactly when everything was executed. */
    lemma EndsWithScript()
      requires Valid()
      ensures nextStatement.None? <==> executed == UnfoldAll(script)
    {
      if nextStatement.Some? {
        ExecuteStep(nextStatement.value, loopVars);
        assert |executed + Remaining()| > |executed|;
      }
    }

    /** Starts the script to find the starting position, then rewinds it. */
    method Initialize()
      requires Valid() && executed == [] && nextStatement == Start(script)
      modifies this
      ensures Valid() && executed == [] && nextStatement == Start(script) && targetTime == old(targetTime)
      ensures stationary == (old(stationary) || script == [])
    {
      hide UnfoldAll, Burst, Duration;
      var now := targetTime;
      ResumeScript();
      targetTime := now;
      nextStatement := Start(script);
      while loopVars != []
        modifies this`loopVars
        decreases |loopVars|
      {
        loopVars := Pop(loopVars);
      }
      executed := [];
      assert script != [] ==> Children(Script(script))[0..] == script;
    }

    /** Executes the next statement and advances. */
    method OneStatement()
      requires Valid() && nextStatement.Some?
      modifies this
      ensures Valid() && stationary == old(stationary)
      ensures old(Remaining()) != [] && Remaining() == old(Remaining())[1..]
      ensures executed == old(executed) + [old(Remaining())[0]]
      ensures targetTime == old(targetTime) + Dt(old(Remaining())[0])
    {
      hide Rest, After, Inside, UnfoldAll, Unfold;
      ghost var r := Remaining();
      ExecuteStep(nextStatement.value, loopVars);
      ExecuteStatement(nextStatement.value);
      GotoNextStatement();
      executed := executed + [r[0]];
      assert Remaining() == r[1..];
      assert executed + Remaining() == old(executed) + r;
    }

    method GotoNextStatement()
      requires nextStatement.Some? && Done(nextStatement.value, loopVars) && Root(nextStatement.value) == script
      modifies this`nextStatement, this`loopVars
      ensures Positioned()
      ensures Remaining() == After(old(nextStatement.value), old(loopVars))
      decreases nextStatement.value
    {
      hide Inside, From, Around, After, Rest, Children;
      var e := nextStatement.value;
      BodyOf(e, loopVars);
      var enter := false;
      if Children(e) != [] {
        if Top(loopVars) != 0 {
          enter := true;
          EnterBody(e, loopVars);
        } else {
          LeaveRepeat(e, loopVars);
          loopVars := Pop(loopVars);
        }
      } else {
        AfterPrim(e, loopVars);
      }
      if enter {
        nextStatement := Some(Child(e, 0));
        return;
      }
      MoveOn(e, loopVars);
      if |Children(e.parent)| <= e.idx + 1 {
        if loopVars != [] {
          EndBody(e.parent, loopVars);
          if Top(loopVars) != -1 {
            loopVars := Pop(loopVars) + [Top(loopVars) - 1];
          }
          if Top(loopVars) != 0 {
            EnterBody(e.parent, loopVars);
            nextStatement := Some(Child(e.parent, 0));
          } else {
            nextStatement := Some(e.parent);
            GotoNextStatement();
          }
        } else {
          nextStatement := None;
        }
      } else {
        nextStatement := Some(Child(e.parent, e.idx + 1));
      }
    }
  }

  /** A script resumed until it ends: every statement of its unfolding was executed once and in order. */
  method RunScript(script: seq<Stmt>) returns (turtle: Turtle, resumptions: nat)
    requires AllFinite(script)
    ensures turtle.nextStatement.None? && turtle.loopVars == []
    ensures turtle.executed == UnfoldAll(script) == Resumed(UnfoldAll(script), resumptions)
    ensures resumptions <= |UnfoldAll(script)| && turtle.targetTime == Duration(UnfoldAll(script))
  {
    assert Duration([]) == 0.0;
    hide UnfoldAll, Resumed, Burst, Rest, Duration, Next;
    turtle := new Turtle(script);
    resumptions := 0;
    NotResumed(UnfoldAll(script));
    while turtle.nextStatement.Some?
      invariant fresh(turtle) && turtle.Valid() && turtle.script == script
      invariant turtle.executed == Resumed(UnfoldAll(script), resumptions) && resumptions <= |turtle.executed|
      invariant turtle.targetTime == Duration(turtle.executed)
      decreases |UnfoldAll(script)| - |turtle.executed|
    {
      turtle.EndsWithScript();
      BurstPrefix(turtle.Remaining());
      DurationBoth(turtle.executed, Burst(turtle.Remaining()));
      turtle.ResumeScript();
      resumptions := resumptions + 1;
    }
    turtle.EndsWithScript();
  }

  lemma NotResumed(us: seq<Stmt>)
    ensures Resumed(us, 0) == []
  {
  }
}
