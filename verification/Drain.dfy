/**
 Draining a runtime while requests come and go, one atomic operation per step.

 A request counts itself in, looks whether the runtime is draining, runs or turns back, and
 counts itself out; whoever finds the count at zero in a draining runtime closes `idle`.
 `Close` drains, waits for `idle`, and tears the runtime down.
 */
module Drain {
  import opened Text

  /** Where a thread stands between two of its atomic operations. */
  datatype Pc =
    | Outside                  // not inside any call
    | Counted                  // acquire: counted in, has not looked at `draining`
    | Running                  // admitted
    | Rejected                 // acquire: saw `draining`, about to count itself out
    | AtZero                   // release: its decrement reached zero, has not looked at `draining`
    | Stored(waits: bool)      // drain: has set `draining`, has not looked at the count
    | Closing(waits: bool)     // closeIdle: about to compare-and-swap `idleClosed`
    | Winner(waits: bool)      // closeIdle: won, about to close `idle`
    | Waiting                  // Close: waits for `idle`
    | Teardown                 // Close: past `idle`, about to compare-and-swap `closed`

  type Thread = nat

  /** `closes` and `teardowns` count the closings of `idle` and of the runtime's resources;
      `clean` records, once draining is set, that no release was then paused at zero. */
  datatype State = State(inFlight: int, draining: bool, idleClosed: bool, closed: bool,
                         closes: nat, teardowns: nat, clean: bool, pc: map<Thread, Pc>)

  function At(s: State, t: Thread): Pc {
    if t in s.pc then s.pc[t] else Outside
  }

  function Move(s: State, t: Thread, pc: Pc): State {
    s.(pc := s.pc[t := pc])
  }

  /** Where a thread goes when it is done with draining. */
  function AfterDrain(waits: bool): Pc {
    if waits then Waiting else Outside
  }

  ghost predicate Init(s: State) {
    s == State(0, false, false, false, 0, 0, false, map[])
  }

  ghost predicate NoneAtZero(s: State) {
    forall t :: At(s, t) != AtZero
  }

  // ------------------------------------------------------------------- the steps

  /** A thread outside any call starts one: a request, a drain, or a close. */
  datatype Call = Acquire | DrainOnly | DrainAndWait

  function Start(s: State, t: Thread, call: Call): State {
    match call
    case Acquire => Move(s, t, Counted).(inFlight := s.inFlight + 1)
    case _ => Move(s, t, Stored(call == DrainAndWait)).(draining := true)
  }

  /** The first store of `draining` takes note of paused releases. */
  ghost function StartNoting(s: State, t: Thread, call: Call): State {
    var next := Start(s, t, call);
    if call != Acquire && !s.draining then next.(clean := NoneAtZero(s)) else next
  }

  /** A thread inside a call performs its next atomic operation. */
  function Continue(s: State, t: Thread): State {
    match At(s, t)
    case Outside => s
    case Counted => Move(s, t, if s.draining then Rejected else Running)
    case Running => Move(s, t, if s.inFlight == 1 then AtZero else Outside).(inFlight := s.inFlight - 1)
    case Rejected => Move(s, t, if s.inFlight == 1 then AtZero else Outside).(inFlight := s.inFlight - 1)
    case AtZero => Move(s, t, if s.draining then Closing(false) else Outside)
    case Stored(waits) => Move(s, t, if s.inFlight == 0 then Closing(waits) else AfterDrain(waits))
    case Closing(waits) =>
      if s.idleClosed then Move(s, t, AfterDrain(waits))
      else Move(s, t, Winner(waits)).(idleClosed := true)
    case Winner(waits) => Move(s, t, AfterDrain(waits)).(closes := s.closes + 1)
    case Waiting => if s.closes > 0 then Move(s, t, Teardown) else s
    case Teardown =>
      if s.closed then Move(s, t, Outside)
      else Move(s, t, Outside).(closed := true, teardowns := s.teardowns + 1)
  }

  ghost predicate Next(s: State, s': State) {
    || (exists t, call :: At(s, t) == Outside && s' == StartNoting(s, t, call))
    || (exists t :: At(s, t) != Outside && s' == Continue(s, t))
  }

  ghost predicate IsRun(run: seq<State>) {
    && run != [] && Init(run[0])
    && forall i :: 0 <= i < |run| - 1 ==> Next(run[i], run[i + 1])
  }

  // ------------------------------------------- the calls, when nothing comes between

  /** `n` steps of one thread; a thread outside any call takes none. */
  function Steps(s: State, t: Thread, n: nat): State
    decreases n
  {
    if n == 0 then s else Steps(Continue(s, t), t, n - 1)
  }

  /** The words all threads share. */
  datatype Words = Words(inFlight: int, draining: bool, idleClosed: bool, closes: nat)

  function WordsOf(s: State): Words {
    Words(s.inFlight, s.draining, s.idleClosed, s.closes)
  }

  /** `n` steps of thread `t` take it out of its call and leave `w`. */
  ghost predicate Leaves(s: State, t: Thread, n: nat, w: Words) {
    At(Steps(s, t, n), t) == Outside && WordsOf(Steps(s, t, n)) == w
  }

  lemma StepsOutside(s: State, t: Thread, n: nat)
    requires At(s, t) == Outside
    ensures Steps(s, t, n) == s
    decreases n
  {
    if n > 0 {
      StepsOutside(s, t, n - 1);
    }
  }

  lemma OneMore(s: State, t: Thread, n: nat, w: Words)
    requires n > 0 && Leaves(Continue(s, t), t, n - 1, w)
    ensures Leaves(s, t, n, w)
  {
  }

  lemma ClosingAlone(s: State, t: Thread)
    requires At(s, t) == Closing(false)
    ensures Leaves(s, t, 2, WordsOf(s).(idleClosed := true, closes := if s.idleClosed then s.closes else s.closes + 1))
  {
    var a := Continue(s, t);
    assert Steps(s, t, 2) == Steps(a, t, 1) == Steps(Continue(a, t), t, 0);
  }

  lemma ReleaseAlone(s: State, t: Thread)
    requires At(s, t) in {Running, Rejected}
    ensures var closing := s.inFlight == 1 && s.draining;
            Leaves(s, t, 4, Words(s.inFlight - 1, s.draining, s.idleClosed || closing,
                                  if closing && !s.idleClosed then s.closes + 1 else s.closes))
  {
    var a := Continue(s, t);
    var b := Continue(a, t);
    if s.inFlight == 1 && s.draining {
      ClosingAlone(b, t);
    } else {
      StepsOutside(b, t, 2);
    }
    OneMore(a, t, 3, WordsOf(Steps(b, t, 2)));
    OneMore(s, t, 4, WordsOf(Steps(b, t, 2)));
  }

  lemma DrainAlone(s: State, t: Thread)
    requires At(s, t) == Stored(false)
    ensures var closing := s.inFlight == 0;
            Leaves(s, t, 3, Words(s.inFlight, s.draining, s.idleClosed || closing,
                                  if closing && !s.idleClosed then s.closes + 1 else s.closes))
  {
    var a := Continue(s, t);
    if s.inFlight == 0 {
      ClosingAlone(a, t);
    } else {
      StepsOutside(a, t, 2);
    }
    OneMore(s, t, 3, WordsOf(Steps(a, t, 2)));
  }

  /** The runtime as an object. A call that nothing interrupts is its thread's steps in a row. */
  class RuntimeState {
    var inFlight: int
    var draining: bool
    var idleClosed: bool
    ghost var closes: nat

    ghost function Value(): Words
      reads this
    {
      Words(inFlight, draining, idleClosed, closes)
    }

    constructor ()
      ensures Value() == Words(0, false, false, 0)
    {
      inFlight, draining, idleClosed, closes := 0, false, false, 0;
    }

    method CloseIdle()
      modifies this
      ensures Value() == old(Value()).(idleClosed := true,
                                       closes := if old(idleClosed) then old(closes) else old(closes) + 1)
    {
      if !idleClosed {
        idleClosed := true;
        closes := closes + 1;
      }
    }

    method Release()
      modifies this
      ensures forall s, t :: WordsOf(s) == old(Value()) && At(s, t) in {Running, Rejected} ==> Leaves(s, t, 4, Value())
    {
      inFlight := inFlight - 1;
      if inFlight == 0 && draining {
        CloseIdle();
      }
      forall s, t | WordsOf(s) == old(Value()) && At(s, t) in {Running, Rejected} ensures Leaves(s, t, 4, Value()) {
        ReleaseAlone(s, t);
      }
    }

    method Acquire() returns (admitted: bool)
      modifies this
      ensures admitted ==> forall s, t :: WordsOf(s) == old(Value()) && At(s, t) == Outside ==>
                var end := Continue(Start(s, t, Call.Acquire), t);
                At(end, t) == Running && WordsOf(end) == Value()
      ensures !admitted ==> forall s, t :: WordsOf(s) == old(Value()) && At(s, t) == Outside ==>
                Leaves(Start(s, t, Call.Acquire), t, 5, Value())
      ensures admitted == !old(draining)
    {
      inFlight := inFlight + 1;
      if draining {
        ghost var counted := Value();
        Release();
        forall s, t | WordsOf(s) == old(Value()) && At(s, t) == Outside
          ensures Leaves(Start(s, t, Call.Acquire), t, 5, Value())
        {
          var a := Start(s, t, Call.Acquire);
          assert WordsOf(Continue(a, t)) == counted && At(Continue(a, t), t) == Rejected;
          OneMore(a, t, 5, Value());
        }
        return false;
      }
      return true;
    }

    method Drain()
      modifies this
      ensures forall s, t :: WordsOf(s) == old(Value()) && At(s, t) == Outside ==>
                Leaves(Start(s, t, DrainOnly), t, 3, Value())
    {
      draining := true;
      if inFlight == 0 {
        CloseIdle();
      }
      forall s, t | WordsOf(s) == old(Value()) && At(s, t) == Outside
        ensures Leaves(Start(s, t, DrainOnly), t, 3, Value())
      {
        DrainAlone(Start(s, t, DrainOnly), t);
      }
    }
  }

  // --------------------------------------------------------------- the invariant

  /** Threads counted in `inFlight`. */
  predicate InFlight(pc: Pc) {
    pc == Counted || pc == Running || pc == Rejected
  }

  function CountedIn(s: State): set<Thread> {
    set t | t in s.pc && InFlight(s.pc[t])
  }

  function Winners(s: State): set<Thread> {
    set t | t in s.pc && s.pc[t].Winner?
  }

  /** Someone is on the way to close `idle`. */
  predicate OnTheWay(pc: Pc) {
    pc == AtZero || pc.Stored? || pc.Closing?
  }

  ghost predicate Counts(s: State) {
    && s.inFlight == |CountedIn(s)|
    && s.closes + |Winners(s)| == (if s.idleClosed then 1 else 0)
    && s.teardowns == (if s.closed then 1 else 0)
  }

  ghost predicate NoLostWakeup(s: State) {
    s.draining && s.inFlight == 0 ==> s.idleClosed || exists t :: OnTheWay(At(s, t))
  }

  /** Nobody closes before draining is set, nor tears down before `idle` is closed. */
  ghost predicate Ordered(s: State) {
    && (!s.draining ==> !s.idleClosed && forall t :: !At(s, t).Stored? && !At(s, t).Closing?)
    && (s.closes == 0 ==> !s.closed && forall t :: At(s, t) != Teardown)
  }

  /** After a clean start of draining, whoever is about to close has seen the last request leave. */
  ghost predicate Quiet(s: State) {
    s.draining && s.clean && (s.idleClosed || exists t :: At(s, t) == AtZero || At(s, t).Closing?)
    ==> forall t :: At(s, t) != Running
  }

  ghost predicate Inv(s: State) {
    Counts(s) && NoLostWakeup(s) && Ordered(s) && Quiet(s)
  }

  // ------------------------------------------------------- every step keeps it

  /** `s'` differs from `s` in where thread `t` stands, and perhaps in the shared words. */
  ghost predicate Moved(s: State, s': State, t: Thread, pc: Pc) {
    s'.pc == s.pc[t := pc]
  }

  lemma MovedAt(s: State, s': State, t: Thread, pc: Pc)
    requires Moved(s, s', t, pc)
    ensures forall u :: At(s', u) == if u == t then pc else At(s, u)
  {
  }

  lemma InSets(s: State)
    ensures forall u :: u in CountedIn(s) <==> InFlight(At(s, u))
    ensures forall u :: u in Winners(s) <==> At(s, u).Winner?
  {
  }

  lemma MovedSets(s: State, s': State, t: Thread, pc: Pc)
    requires Moved(s, s', t, pc)
    ensures |CountedIn(s')| == |CountedIn(s)| - (if InFlight(At(s, t)) then 1 else 0) + (if InFlight(pc) then 1 else 0)
    ensures |Winners(s')| == |Winners(s)| - (if At(s, t).Winner? then 1 else 0) + (if pc.Winner? then 1 else 0)
  {
    MovedAt(s, s', t, pc);
    InSets(s);
    InSets(s');
    hide CountedIn, Winners, At, Moved;
    SizeIfChanged(CountedIn(s), CountedIn(s'), t);
    SizeIfChanged(Winners(s), Winners(s'), t);
  }

  /** The number of requests inside is at least one if there is one. */
  lemma SomeoneInside(s: State, t: Thread)
    requires InFlight(At(s, t))
    ensures |CountedIn(s)| >= 1
    ensures |CountedIn(s)| == 1 ==> forall u :: InFlight(At(s, u)) ==> u == t
  {
    assert t in CountedIn(s);
    assert {t} <= CountedIn(s);
    assert |CountedIn(s) - {t}| == |CountedIn(s)| - 1;
    if |CountedIn(s)| == 1 {
      forall u | InFlight(At(s, u)) ensures u == t {
        assert u in CountedIn(s);
        assert u !in CountedIn(s) - {t};
      }
    }
  }

  lemma NobodyInside(s: State)
    requires |CountedIn(s)| == 0
    ensures forall u :: At(s, u) != Running
  {
    forall u ensures At(s, u) != Running {
      assert u !in CountedIn(s);
    }
  }

  lemma StartKeepsInv(s: State, t: Thread, call: Call)
    requires Inv(s) && At(s, t) == Outside
    ensures Inv(StartNoting(s, t, call))
  {
    hide At, CountedIn, Winners, Moved;
    var s' := StartNoting(s, t, call);
    var pc := if call == Acquire then Counted else Stored(call == DrainAndWait);
    assert Moved(s, s', t, pc) by { StartMoves(s, t, call); }
    MovedAt(s, s', t, pc);
    MovedSets(s, s', t, pc);
    assert OnTheWay(At(s', t)) <==> call != Acquire;
    assert forall u :: OnTheWay(At(s, u)) ==> OnTheWay(At(s', u));
    assert call != Acquire && !s.draining && s'.clean ==> forall u :: At(s', u) != AtZero;
  }

  lemma StartMoves(s: State, t: Thread, call: Call)
    ensures Moved(s, StartNoting(s, t, call), t,
                  if call == Acquire then Counted else Stored(call == DrainAndWait))
  {
  }

  /** The state a thread is in after its next operation. */
  ghost function Landing(s: State, t: Thread): Pc {
    match At(s, t)
    case Outside => Outside
    case Counted => if s.draining then Rejected else Running
    case Running => if s.inFlight == 1 then AtZero else Outside
    case Rejected => if s.inFlight == 1 then AtZero else Outside
    case AtZero => if s.draining then Closing(false) else Outside
    case Stored(waits) => if s.inFlight == 0 then Closing(waits) else AfterDrain(waits)
    case Closing(waits) => if s.idleClosed then AfterDrain(waits) else Winner(waits)
    case Winner(waits) => AfterDrain(waits)
    case Waiting => if s.closes > 0 then Teardown else Waiting
    case Teardown => Outside
  }

  lemma ContinueMoves(s: State, t: Thread)
    requires At(s, t) != Outside
    ensures Moved(s, Continue(s, t), t, Landing(s, t))
  {
    assert s.pc == s.pc[t := s.pc[t]];
  }

  lemma ContinueKeepsInv(s: State, t: Thread)
    requires Inv(s) && At(s, t) != Outside
    ensures Inv(Continue(s, t))
  {
    hide CountedIn, Winners, Moved;
    var s', pc, from := Continue(s, t), Landing(s, t), At(s, t);
    ContinueMoves(s, t);
    MovedAt(s, s', t, pc);
    MovedSets(s, s', t, pc);
    if InFlight(from) {
      SomeoneInside(s, t);
    }
    if |CountedIn(s')| == 0 {
      NobodyInside(s');
    }
  }

  // ---------------------------------------------------------------- whole runs

  lemma NextKeepsInv(s: State, s': State)
    requires Inv(s) && Next(s, s')
    ensures Inv(s')
  {
    hide Inv, Continue, StartNoting;
    if t, call :| At(s, t) == Outside && s' == StartNoting(s, t, call) {
      StartKeepsInv(s, t, call);
    } else {
      var t :| At(s, t) != Outside && s' == Continue(s, t);
      ContinueKeepsInv(s, t);
    }
  }

  lemma {:induction false} RunKeepsInv(run: seq<State>)
    requires IsRun(run)
    ensures Inv(run[|run| - 1])
    decreases |run|
  {
    hide Inv, Next;
    var n := |run| - 1;
    if n == 0 {
      assert Inv(run[0]) by { InitHasInv(run[0]); }
    } else {
      RunKeepsInv(run[..n]);
      assert Next(run[n - 1], run[n - 1 + 1]);
      NextKeepsInv(run[n - 1], run[n]);
    }
  }

  lemma InitHasInv(s: State)
    requires Init(s)
    ensures Inv(s)
  {
    assert CountedIn(s) == {} && Winners(s) == {};
  }

  /** In every run `idle` is closed at most once, and only in a draining runtime; the resources
      are torn down at most once, and only after that. */
  lemma ClosesOnce(run: seq<State>)
    requires IsRun(run)
    ensures var s := run[|run| - 1];
            && s.closes <= 1 && s.teardowns <= 1
            && (s.closes == 1 ==> s.draining) && (s.teardowns == 1 ==> s.closes == 1)
  {
    RunKeepsInv(run);
  }

  /** No lost wake-up: once draining is set, whenever no call is midway and no request is
      admitted, `idle` has been closed, so every waiting `Close` can go on. */
  lemma CloseCannotHang(run: seq<State>)
    requires IsRun(run)
    requires var s := run[|run| - 1];
             s.draining && forall t :: At(s, t) in {Outside, Waiting, Teardown}
    ensures var s := run[|run| - 1];
            s.closes == 1 && forall t :: At(s, t) == Waiting ==> At(Continue(s, t), t) == Teardown
  {
    RunKeepsInv(run);
    var s := run[|run| - 1];
    InSets(s);
    assert CountedIn(s) == {};
    assert Winners(s) == {};
  }

  /** Inside a call of `Close`, with everything still to do, or about to tear down. */
  predicate InClose(pc: Pc) {
    pc == Stored(true) || pc == Closing(true) || pc == Winner(true) || pc == Waiting || pc == Teardown
  }

  lemma StepOfThread(s: State, s': State, t: Thread)
    requires Next(s, s') && At(s, t) != Outside
    ensures At(s', t) == At(s, t) || s' == Continue(s, t)
  {
    hide Continue, StartNoting, At;
    if u, call :| At(s, u) == Outside && s' == StartNoting(s, u, call) {
      StartMoves(s, u, call);
      MovedAt(s, s', u, if call == Acquire then Counted else Stored(call == DrainAndWait));
    } else {
      var u :| At(s, u) != Outside && s' == Continue(s, u);
      ContinueMoves(s, u);
      MovedAt(s, s', u, Landing(s, u));
    }
  }

  /** One step of a run either leaves a `Close` going on, or ends it with all its work done. */
  lemma CloseGoesOn(s: State, s': State, t: Thread)
    requires Inv(s) && Next(s, s') && InClose(At(s, t))
    ensures InClose(At(s', t)) || (At(s', t) == Outside && s'.closes == 1 && s'.closed && s'.teardowns == 1)
    ensures s.closes == 0 ==> InClose(At(s', t))
  {
    hide Next, At, CountedIn, Winners, NoLostWakeup, Quiet;
    NextKeepsInv(s, s');
    StepOfThread(s, s', t);
    if At(s', t) != At(s, t) {
      ContinueMoves(s, t);
      MovedAt(s, s', t, Landing(s, t));
      assert At(s, t) == Teardown ==> s'.closed && s'.closes == s.closes > 0;
    }
  }

  /** When a `Close` that began at step `i` of a run is over for the first time, `idle` has been
      closed and the resources are torn down; while `idle` is open it is never over. */
  lemma {:induction false} CloseWaitsAndTearsDown(run: seq<State>, i: nat, k: nat, t: Thread)
    requires IsRun(run) && i < k < |run|
    requires At(run[i], t) == Outside && run[i + 1] == StartNoting(run[i], t, DrainAndWait)
    requires forall x :: i < x < k ==> At(run[x], t) != Outside
    ensures InClose(At(run[k], t))
            || (At(run[k], t) == Outside && run[k].closes == 1 && run[k].closed && run[k].teardowns == 1)
    ensures run[k - 1].closes == 0 ==> At(run[k], t) != Outside
    decreases k
  {
    hide Inv, Next, IsRun;
    if k == i + 1 {
      CloseBegins(run[i], t);
    } else {
      CloseWaitsAndTearsDown(run, i, k - 1, t);
      RunIsSound(run, k - 1);
      CloseGoesOn(run[k - 1], run[k], t);
    }
  }

  lemma CloseBegins(s: State, t: Thread)
    ensures At(StartNoting(s, t, DrainAndWait), t) == Stored(true)
  {
  }

  lemma RunIsSound(run: seq<State>, x: nat)
    requires IsRun(run) && x + 1 < |run|
    ensures Inv(run[x]) && Next(run[x], run[x + 1])
  {
    hide Inv, Next;
    RunKeepsInv(run[..x + 1]);
  }

  /** If no release was paused at zero when draining was first set, no admitted request is
      running once `idle` is closed, hence none when the resources are torn down. */
  lemma NoRequestAfterIdle(run: seq<State>)
    requires IsRun(run)
    requires var s := run[|run| - 1]; s.clean && s.closes > 0
    ensures var s := run[|run| - 1]; forall t :: At(s, t) != Running
  {
    RunKeepsInv(run);
  }

  /** A draining runtime stays so and admits nobody. */
  lemma DrainingAdmitsNobody(s: State, s': State)
    requires Next(s, s') && s.draining
    ensures s'.draining && forall t :: At(s', t) == Running ==> At(s, t) == Running
  {
    hide Continue, StartNoting;
    if t, call :| At(s, t) == Outside && s' == StartNoting(s, t, call) {
      StartWhileDraining(s, t, call);
    } else {
      var t :| At(s, t) != Outside && s' == Continue(s, t);
      ContinueWhileDraining(s, t);
    }
  }

  lemma StartWhileDraining(s: State, t: Thread, call: Call)
    requires At(s, t) == Outside && s.draining
    ensures var s' := StartNoting(s, t, call);
            s'.draining && forall u :: At(s', u) == Running ==> At(s, u) == Running
  {
    StartMoves(s, t, call);
    MovedAt(s, StartNoting(s, t, call), t, if call == Acquire then Counted else Stored(call == DrainAndWait));
  }

  lemma ContinueWhileDraining(s: State, t: Thread)
    requires At(s, t) != Outside && s.draining
    ensures var s' := Continue(s, t);
            s'.draining && forall u :: At(s', u) == Running ==> At(s, u) == Running
  {
    ContinueMoves(s, t);
    MovedAt(s, Continue(s, t), t, Landing(s, t));
  }

  // ------------------------------------------------ the side condition is needed

  ghost predicate Leads(s: State, path: seq<State>) {
    path != [] && path[0] == s && forall i :: 0 <= i < |path| - 1 ==> Next(path[i], path[i + 1])
  }

  lemma Extend(s: State, path: seq<State>, next: State)
    requires Leads(s, path) && Next(path[|path| - 1], next)
    ensures Leads(s, path + [next])
  {
    hide Next;
  }

  lemma Went(s: State, path: seq<State>, t: Thread)
    requires Leads(s, path) && At(path[|path| - 1], t) != Outside
    ensures Leads(s, path + [Continue(path[|path| - 1], t)])
  {
    hide Continue, At;
    Extend(s, path, Continue(path[|path| - 1], t));
  }

  lemma Came(s: State, path: seq<State>, t: Thread, call: Call)
    requires Leads(s, path) && At(path[|path| - 1], t) == Outside
    ensures Leads(s, path + [StartNoting(path[|path| - 1], t, call)])
  {
    hide StartNoting, At;
    Extend(s, path, StartNoting(path[|path| - 1], t, call));
  }

  /** The state after a request was admitted and draining was set, while a release was paused. */
  ghost function Overtaken(s: State, u: Thread, v: Thread): State {
    StartNoting(Continue(StartNoting(s, u, Acquire), u), v, DrainOnly)
  }

  lemma OvertakenIs(s: State, t: Thread, u: Thread, v: Thread)
    requires !s.draining && !s.idleClosed && At(s, t) == AtZero
    requires At(s, u) == Outside && At(s, v) == Outside && u != v
    ensures var o := Overtaken(s, u, v);
            && o.draining && !o.idleClosed && !o.clean && At(o, t) == AtZero && At(o, u) == Running
            && o.closes == s.closes
    ensures At(StartNoting(s, u, Acquire), u) == Counted
    ensures At(Continue(StartNoting(s, u, Acquire), u), v) == Outside
  {
    assert At(Continue(StartNoting(s, u, Acquire), u), t) == AtZero;
  }

  lemma ReleaseCloses(o: State, t: Thread, u: Thread)
    requires o.draining && !o.idleClosed && !o.clean && At(o, t) == AtZero && At(o, u) == Running
    ensures var a, b := Continue(o, t), Continue(Continue(o, t), t);
            && At(a, t) == Closing(false) && At(b, t) == Winner(false)
            && Continue(b, t).closes == o.closes + 1 && At(Continue(b, t), u) == Running && !Continue(b, t).clean
  {
  }

  /** From any state in which a release is paused at zero before draining is set, `idle` can be
      closed while a request that was admitted in the meantime is running. */
  lemma PausedReleaseClosesEarly(s: State, t: Thread, u: Thread, v: Thread) returns (path: seq<State>)
    requires !s.draining && !s.idleClosed && At(s, t) == AtZero
    requires At(s, u) == Outside && At(s, v) == Outside && u != v
    ensures Leads(s, path)
    ensures var end := path[|path| - 1]; end.closes > 0 && At(end, u) == Running && !end.clean
  {
    hide At, Continue, StartNoting, Next;
    OvertakenIs(s, t, u, v);
    ReleaseCloses(Overtaken(s, u, v), t, u);
    path := [s];
    Came(s, path, u, Acquire);
    path := path + [StartNoting(s, u, Acquire)];
    Went(s, path, u);
    path := path + [Continue(path[|path| - 1], u)];
    Came(s, path, v, DrainOnly);
    path := path + [StartNoting(path[|path| - 1], v, DrainOnly)];
    Went(s, path, t);
    path := path + [Continue(path[|path| - 1], t)];
    Went(s, path, t);
    path := path + [Continue(path[|path| - 1], t)];
    Went(s, path, t);
    path := path + [Continue(path[|path| - 1], t)];
  }

  /** Such a state is reachable, so without the side condition the runtime can be torn down
      under a running request. */
  lemma UncleanDrainIsUnsafe() returns (run: seq<State>)
    ensures IsRun(run)
    ensures var s := run[|run| - 1]; s.closes > 0 && exists t :: At(s, t) == Running
  {
    var s0 := State(0, false, false, false, 0, 0, false, map[]);
    var s1 := StartNoting(s0, 0, Acquire);
    var s2 := Continue(s1, 0);
    var s3 := Continue(s2, 0);
    Extend(s0, [s0], s1);
    Extend(s0, [s0] + [s1], s2);
    Extend(s0, [s0] + [s1] + [s2], s3);
    var front := [s0] + [s1] + [s2];
    var path := PausedReleaseClosesEarly(s3, 0, 1, 2);
    run := front + path;
    forall i | 0 <= i < |run| - 1 ensures Next(run[i], run[i + 1]) {
      if i < 3 {
        assert Leads(s0, front + [s3]);
        assert run[i] == (front + [s3])[i] && run[i + 1] == (front + [s3])[i + 1];
      } else {
        assert Next(path[i - 3], path[i - 3 + 1]);
      }
    }
  }

  // ------------------------------------------------------ exactly when nothing can go wrong

  /** No admitted request is running once `idle` is closed. */
  ghost predicate Sound(s: State) {
    s.closes > 0 ==> forall t :: At(s, t) != Running
  }

  /** It stays so, whatever happens next. */
  ghost predicate SafeFrom(s: State) {
    forall path: seq<State> :: Leads(s, path) ==> Sound(path[|path| - 1])
  }

  /** Inside a call that will close `idle`, if nobody has yet, without looking at the count again. */
  predicate Committed(pc: Pc) {
    pc == AtZero || pc.Closing? || pc.Winner?
  }

  /** No request is running, or `idle` is open and no thread is committed to closing it. */
  ghost predicate Calm(s: State) {
    || (forall t :: At(s, t) != Running)
    || (s.closes == 0 && forall t :: !Committed(At(s, t)))
  }

  lemma NextKeepsCalm(s: State, s': State)
    requires Inv(s) && s.draining && Calm(s) && Next(s, s')
    ensures s'.draining && Calm(s')
  {
    hide Inv, Continue, StartNoting, Calm;
    DrainingAdmitsNobody(s, s');
    if t, call :| At(s, t) == Outside && s' == StartNoting(s, t, call) {
      StartKeepsCalm(s, t, call);
    } else {
      var t :| At(s, t) != Outside && s' == Continue(s, t);
      ContinueKeepsCalm(s, t);
    }
  }

  lemma StartKeepsCalm(s: State, t: Thread, call: Call)
    requires s.draining && Calm(s) && At(s, t) == Outside
    ensures Calm(StartNoting(s, t, call))
  {
    hide At;
    var pc := if call == Acquire then Counted else Stored(call == DrainAndWait);
    StartMoves(s, t, call);
    MovedAt(s, StartNoting(s, t, call), t, pc);
  }

  lemma ContinueKeepsCalm(s: State, t: Thread)
    requires Inv(s) && s.draining && Calm(s) && At(s, t) != Outside
    ensures Calm(Continue(s, t))
  {
    hide CountedIn, Winners, Moved, NoLostWakeup, Ordered, Quiet;
    ContinueMoves(s, t);
    MovedAt(s, Continue(s, t), t, Landing(s, t));
    if u :| At(s, u) == Running {
      SomeoneInside(s, u);
    }
  }

  lemma {:induction false} CalmStays(s: State, path: seq<State>)
    requires Inv(s) && s.draining && Calm(s) && Leads(s, path)
    ensures var end := path[|path| - 1]; Inv(end) && end.draining && Calm(end)
    decreases |path|
  {
    hide Inv, Next, Calm;
    var n := |path| - 1;
    if n > 0 {
      CalmStays(s, path[..n]);
      assert Next(path[n - 1], path[n - 1 + 1]);
      NextKeepsInv(path[n - 1], path[n]);
      NextKeepsCalm(path[n - 1], path[n]);
    }
  }

  /** A path to a state in which `idle` is closed and a request is running. */
  ghost predicate GoesWrong(s: State, path: seq<State>) {
    Leads(s, path) && !Sound(path[|path| - 1])
  }

  lemma ContinueIsNext(s: State, t: Thread)
    requires At(s, t) != Outside
    ensures Next(s, Continue(s, t))
  {
    hide Continue, At;
  }

  lemma Prepend(s: State, next: State, path: seq<State>)
    requires Next(s, next) && GoesWrong(next, path)
    ensures GoesWrong(s, [s] + path)
  {
    hide Next, Sound;
    var more := [s] + path;
    forall i | 0 <= i < |more| - 1 ensures Next(more[i], more[i + 1]) {
      if i > 0 {
        assert Next(path[i - 1], path[i - 1 + 1]);
      }
    }
    assert more[|more| - 1] == path[|path| - 1];
  }

  lemma OthersStay(s: State, t: Thread, u: Thread)
    requires At(s, t) != Outside && u != t
    ensures At(Continue(s, t), u) == At(s, u)
  {
    ContinueMoves(s, t);
    MovedAt(s, Continue(s, t), t, Landing(s, t));
  }

  /** A thread committed to closing `idle` closes it under a running request. */
  lemma CommittedCloses(s: State, t: Thread, u: Thread) returns (path: seq<State>)
    requires s.draining && At(s, u) == Running
    requires At(s, t).Winner? || (Committed(At(s, t)) && !s.idleClosed)
    ensures GoesWrong(s, path)
    decreases if At(s, t) == AtZero then 2 else if At(s, t).Closing? then 1 else 0
  {
    var next := Continue(s, t);
    OthersStay(s, t, u);
    ContinueIsNext(s, t);
    if At(s, t).Winner? {
      path := [next];
      assert next.closes == s.closes + 1 && At(next, u) == Running;
    } else {
      path := CommittedCloses(next, t, u);
    }
    hide Continue, Next, At, Sound;
    Prepend(s, next, path);
    path := [s] + path;
  }

  lemma DisturbedGoesWrong(s: State) returns (path: seq<State>)
    requires Inv(s) && s.draining && !Calm(s)
    ensures GoesWrong(s, path)
  {
    var u :| At(s, u) == Running;
    if s.closes > 0 {
      path := [s];
    } else if w :| At(s, w).Winner? {
      path := CommittedCloses(s, w, u);
    } else {
      InSets(s);
      assert Winners(s) == {};
      var t :| Committed(At(s, t));
      path := CommittedCloses(s, t, u);
    }
  }

  /** In every draining state that keeps the invariant: no admitted request ever runs once `idle` is closed, if
      and only if none is running now, or `idle` is open and nobody is committed to closing it. */
  lemma DrainingIsSafeExactly(s: State)
    requires Inv(s) && s.draining
    ensures SafeFrom(s) <==> Calm(s)
  {
    hide Inv, Next;
    if Calm(s) {
      forall path: seq<State> | Leads(s, path) ensures Sound(path[|path| - 1]) {
        CalmStays(s, path);
      }
    } else {
      var path := DisturbedGoesWrong(s);
    }
  }

  /** At the moment draining is set: it is safe if and only if no release is paused at zero, or no
      request is running. */
  lemma DrainIsSafeExactly(s: State, v: Thread, call: Call)
    requires Inv(s) && !s.draining && At(s, v) == Outside && call != Acquire
    ensures SafeFrom(StartNoting(s, v, call)) <==> NoneAtZero(s) || forall t :: At(s, t) != Running
  {
    hide SafeFrom, Next;
    var d := StartNoting(s, v, call);
    StartKeepsInv(s, v, call);
    DrainingIsSafeExactly(d);
    StartMoves(s, v, call);
    MovedAt(s, d, v, Stored(call == DrainAndWait));
    NobodyClosesYet(s);
    hide Inv, At, StartNoting;
  }

  lemma NobodyClosesYet(s: State)
    requires Inv(s) && !s.draining
    ensures s.closes == 0 && !s.idleClosed && forall t :: !At(s, t).Closing? && !At(s, t).Winner?
  {
    InSets(s);
    hide CountedIn;
    assert |Winners(s)| == 0;
  }

  /** A thread outside any call. */
  lemma FreshThread(s: State, avoid: Thread) returns (t: Thread)
    ensures At(s, t) == Outside && t != avoid
  {
    t := AboveAll(s.pc.Keys + {avoid});
  }

  /** From a release paused at zero things can go wrong. */
  lemma PausedGoesWrong(s: State, t: Thread) returns (path: seq<State>)
    requires !s.draining && !s.idleClosed && At(s, t) == AtZero
    ensures GoesWrong(s, path)
  {
    hide Next;
    var u := FreshThread(s, t);
    var v := FreshThread(s, u);
    path := PausedReleaseClosesEarly(s, t, u, v);
  }

  /** A counted thread leaves. */
  lemma OneLeaves(s: State, t: Thread)
    requires Inv(s) && !s.draining && (At(s, t) == Running || At(s, t) == Rejected)
    ensures var next := Continue(s, t);
            Inv(next) && !next.draining && |CountedIn(next)| == |CountedIn(s)| - 1
  {
    hide CountedIn, Winners, Inv;
    ContinueKeepsInv(s, t);
    ContinueMoves(s, t);
    MovedSets(s, Continue(s, t), t, Landing(s, t));
  }

  lemma OneIsAdmitted(s: State, t: Thread)
    requires Inv(s) && !s.draining && At(s, t) == Counted
    ensures var next := Continue(s, t);
            Inv(next) && !next.draining && |CountedIn(next)| == |CountedIn(s)| && At(next, t) == Running
  {
    hide CountedIn, Winners, Inv;
    ContinueKeepsInv(s, t);
    ContinueMoves(s, t);
    MovedSets(s, Continue(s, t), t, Landing(s, t));
  }

  /** With nobody inside, a request that comes and leaves pauses at zero. */
  lemma ComesAndLeaves(s: State, t: Thread) returns (a: State, b: State, c: State)
    requires !s.draining && !s.idleClosed && s.inFlight == 0 && At(s, t) == Outside
    ensures Next(s, a) && Next(a, b) && Next(b, c)
    ensures !c.draining && !c.idleClosed && At(c, t) == AtZero
  {
    a := StartNoting(s, t, Acquire);
    b := Continue(a, t);
    c := Continue(b, t);
    ContinueIsNext(a, t);
    ContinueIsNext(b, t);
  }

  /** Before draining is set, things can always go wrong: all requests inside leave, and the last
      one is overtaken. */
  lemma {:induction false} UndrainedGoesWrong(s: State) returns (path: seq<State>)
    requires Inv(s) && !s.draining
    ensures GoesWrong(s, path)
    decreases |CountedIn(s)|
  {
    hide Next, Continue, Sound, Leads, Inv;
    NobodyClosesYet(s);
    InSets(s);
    if t :| At(s, t) == AtZero {
      path := PausedGoesWrong(s, t);
    } else if CountedIn(s) == {} {
      var t := FreshThread(s, 0);
      InFlightIs(s);
      var a, b, c := ComesAndLeaves(s, t);
      path := PausedGoesWrong(c, t);
      Prepend(b, c, path);
      Prepend(a, b, [b] + path);
      Prepend(s, a, [a] + ([b] + path));
      path := [s] + ([a] + ([b] + path));
    } else {
      var t :| t in CountedIn(s);
      var inside := s;
      ContinueIsNext(s, t);
      if At(s, t) == Counted {
        OneIsAdmitted(s, t);
        inside := Continue(s, t);
      }
      OneLeaves(inside, t);
      ContinueIsNext(inside, t);
      path := UndrainedGoesWrong(Continue(inside, t));
      Prepend(inside, Continue(inside, t), path);
      path := [inside] + path;
      if At(s, t) == Counted {
        Prepend(s, inside, path);
        path := [s] + path;
      }
    }
  }

  lemma InFlightIs(s: State)
    requires Inv(s)
    ensures s.inFlight == |CountedIn(s)|
  {
  }

  /** So a state is safe for good if and only if draining is set in it, and it is calm. */
  lemma SafeFromExactly(s: State)
    requires Inv(s)
    ensures SafeFrom(s) <==> s.draining && Calm(s)
  {
    hide Inv, Next, Calm, Sound;
    if s.draining {
      DrainingIsSafeExactly(s);
    } else {
      var path := UndrainedGoesWrong(s);
    }
  }
}
