/**
  What the threaded engine can still do from every reachable state: work through what is
  enqueued, let a control call return, and end on request.  The runs given here need no new
  call and no spurious wake-up; from a state with the lock free they consist of steps of the
  loop and of notifications alone.
  */
module ThreadedProgress {
  import opened ThreadedEngine

  /** A step of the loop, a notification, or a step of the client in its critical section. */
  ghost predicate Helpful(s: State, step: Step) {
    || (!OfClient(step) && !step.WakeSpuriously?)
    || step.Notify?
    || ((step.Push? || step.Count? || step.Leave? || step.SetExit?) && s.lock == ByClient(step.client))
  }

  /** A run from s on by such steps. */
  ghost predicate Path(s: State, states: seq<State>, steps: seq<Step>) {
    && |states| == |steps| + 1 && states[0] == s
    && forall k :: 0 <= k < |steps| ==> NextStep(states[k], states[k + 1], steps[k]) && Helpful(states[k], steps[k])
  }

  ghost function Last(states: seq<State>): State
    requires states != []
  {
    states[|states| - 1]
  }

  lemma PathOn(s: State, t: State, step: Step, states: seq<State>, steps: seq<Step>)
    requires NextStep(s, t, step) && Helpful(s, step) && Path(t, states, steps)
    ensures Path(s, [s] + states, [step] + steps) && Last([s] + states) == Last(states)
  {
    var all, moves := [s] + states, [step] + steps;
    forall k | 0 <= k < |moves| ensures NextStep(all[k], all[k + 1], moves[k]) && Helpful(all[k], moves[k]) {
      if k > 0 {
        assert all[k] == states[k - 1] && moves[k] == steps[k - 1];
      }
    }
  }

  // ----- the lock and the wait set ------------------------------------------------------------

  /** The steps that the client in its critical section has yet to take there. */
  ghost function HolderSteps(s: State): nat {
    if !s.lock.ByClient? then 0
    else match Pc(s, s.lock.client) case Pushing(_) => 3 case Counting => 2 case _ => 1
  }

  /** A client in its critical section moves on. */
  ghost predicate HolderMoved(s: State, t: State) {
    && HolderSteps(t) < HolderSteps(s) && (s.exitNow ==> t.exitNow)
    && t.engine == s.engine && t.processed == s.processed && t.local == s.local && s.enqueued <= t.enqueued
  }

  lemma HolderPushes(s: State, i: ClientId) returns (t: State)
    requires s.lock == ByClient(i) && Pc(s, i).Pushing?
    ensures PushStep(s, t, i) && HolderMoved(s, t)
  {
    var x := Pc(s, i).instruction;
    t := SetPc(s, i, Counting).(queue := s.queue + [x], enqueued := s.enqueued + [x],
                                handshake := if x.Control? then Enqueued(x.kind, |s.enqueued| + 1) else s.handshake);
  }

  lemma HolderCounts(s: State, i: ClientId) returns (t: State)
    requires s.lock == ByClient(i) && Pc(s, i).Counting?
    ensures CountStep(s, t, i) && HolderMoved(s, t)
  {
    t := SetPc(s, i, Leaving).(pendingCnt := s.pendingCnt + 1);
  }

  /** The client in its critical section takes its next step. */
  lemma HolderMoves(s: State) returns (t: State, step: Step)
    requires Inv(s) && s.lock.ByClient?
    ensures NextStep(s, t, step) && Helpful(s, step) && HolderMoved(s, t)
  {
    var i := s.lock.client;
    assert ClientOk(s, i);
    match Pc(s, i)
    case Pushing(_) =>
      step := Push(i);
      t := HolderPushes(s, i);
    case Counting =>
      step := Count(i);
      t := HolderCounts(s, i);
    case Leaving =>
      step := Leave(i);
      t := SetPc(s, i, if s.engineWaiting then Notifying else Idle).(lock := Free);
    case Exiting =>
      step := SetExit(i);
      t := SetPc(s, i, Notifying).(lock := Free, exitNow := true);
  }

  /** The engine gets closer to the lock, or out of the wait set. */
  ghost predicate Closer(s: State, t: State) {
    && t.processed == s.processed && t.local == s.local && s.enqueued <= t.enqueued && (s.exitNow ==> t.exitNow)
    && if s.lock.ByClient? then t.engine == s.engine && HolderSteps(t) < HolderSteps(s)
       else t.engine == if s.engine == Asleep then Woken else Checking
  }

  /** A sleeping engine with something to do is woken, an engine that wants the lock takes it;
      a client that holds the lock moves on first. */
  lemma TowardsLock(s: State) returns (t: State, step: Step)
    requires Inv(s) && (s.engine == EngineWantLock || s.engine == Woken || s.engine == Asleep)
    requires s.engine == Asleep ==> s.queue != [] || s.exitNow
    ensures NextStep(s, t, step) && Helpful(s, step) && Closer(s, t)
  {
    if s.lock.ByClient? {
      t, step := HolderMoves(s);
    } else if s.engine == Asleep {
      var i :| WillNotify(s, i);
      assert ClientOk(s, i);
      step := Notify(i);
      t := SetPc(s, i, Idle).(engine := Woken);
    } else {
      step := EngineTakeLock;
      t := s.(engine := Checking, lock := ByEngine, engineWaiting := true);
    }
  }

  // ----- every enqueued instruction can be processed ---------------------------------------------

  /** The loop has ended, or will before it takes the instruction at position p: it was asked to
      exit and reads the request before the queue. */
  ghost predicate Stuck(s: State, p: nat) {
    && |s.processed| <= p
    && (|| s.engine == Exited
        || (s.exitNow && (s.engine == Top || (s.engine == Processing && |s.processed| + |s.local| <= p))))
  }

  ghost predicate InBatch(s: State, p: nat) {
    HasBatch(s.engine) && p < |s.processed| + |s.local|
  }

  ghost function Stage(s: State, p: nat): nat {
    if InBatch(s, p) then 0 else if s.engine == Processing then 2 else 1
  }

  ghost function Distance(s: State, p: nat): nat {
    if InBatch(s, p) then if s.engine == Copied then 2 else if s.engine == Cleared then 1 else 0
    else match s.engine
      case Processing => |s.local|
      case Top => 5
      case Asleep => 4
      case EngineWantLock => 3
      case Woken => 3
      case Checking => 2
      case _ => 1
  }

  ghost function Rest(s: State, p: nat): nat {
    if InBatch(s, p) && |s.processed| <= p then p - |s.processed| else HolderSteps(s)
  }

  ghost predicate Nearer(s: State, t: State, p: nat) {
    || Stage(t, p) < Stage(s, p)
    || (Stage(t, p) == Stage(s, p) && Distance(t, p) < Distance(s, p))
    || (Stage(t, p) == Stage(s, p) && Distance(t, p) == Distance(s, p) && Rest(t, p) < Rest(s, p))
  }

  /** The next instruction of the batch, or the end of it. */
  lemma AdvanceProcessing(s: State) returns (t: State, step: Step)
    requires s.engine == Processing
    ensures NextStep(s, t, step) && Helpful(s, step) && t.exitNow == s.exitNow && t.enqueued == s.enqueued
    ensures if s.local == [] then t.engine == Top && t.processed == s.processed && t.local == []
            else t.engine == Processing && |t.processed| == |s.processed| + 1 && |t.local| == |s.local| - 1
  {
    if s.local == [] {
      t, step := s.(engine := Top, busy := false), RunEngine(false);
    } else {
      var x := s.local[0];
      step := Process(false);
      t := s.(local := s.local[1..], processed := s.processed + [x], busy := false,
              unloadFinished := s.unloadFinished || x.Control?,
              reloadFinished := s.reloadFinished || x == Control(Reload));
    }
  }

  /** The instruction is in the batch, or a batch before it is being processed. */
  lemma AdvanceBatch(s: State, p: nat) returns (t: State, step: Step)
    requires Inv(s) && |s.processed| <= p < |s.enqueued| && HasBatch(s.engine) && !Stuck(s, p)
    ensures NextStep(s, t, step) && Helpful(s, step)
    ensures p < |t.enqueued| && !Stuck(t, p) && (|t.processed| > p || Nearer(s, t, p))
  {
    if s.engine == Copied {
      step := Clear;
      t := s.(engine := Cleared, queue := []);
    } else if s.engine == Cleared {
      step := ResetCount;
      t := s.(engine := Processing, pendingCnt := 0, lock := Free);
    } else {
      t, step := AdvanceProcessing(s);
    }
  }

  lemma CloserIsNearer(s: State, t: State, p: nat)
    requires s.engine == EngineWantLock || s.engine == Woken || s.engine == Asleep
    requires Closer(s, t)
    ensures !Stuck(t, p) && Nearer(s, t, p)
  {}

  /** The engine holds the lock and has not copied the queue yet. */
  lemma AdvanceLocked(s: State, p: nat) returns (t: State, step: Step)
    requires Inv(s) && |s.processed| <= p < |s.enqueued| && (s.engine == Checking || s.engine == Ready)
    ensures NextStep(s, t, step) && Helpful(s, step)
    ensures p < |t.enqueued| && !Stuck(t, p) && Nearer(s, t, p)
  {
    if s.engine == Checking {
      assert s.lock == ByEngine && s.local == [] && |s.queue| > 0;
      step := Check;
      t := s.(engine := Ready, engineWaiting := false);
    } else {
      step := Copy;
      t := s.(engine := Copied, local := s.queue);
    }
  }

  /** The instruction is still in the queue. */
  lemma AdvanceLoop(s: State, p: nat) returns (t: State, step: Step)
    requires Inv(s) && |s.processed| <= p < |s.enqueued| && !HasBatch(s.engine) && !Stuck(s, p)
    ensures NextStep(s, t, step) && Helpful(s, step)
    ensures p < |t.enqueued| && !Stuck(t, p) && Nearer(s, t, p)
  {
    if s.engine == Top {
      step := TestExit;
      t := s.(engine := EngineWantLock);
    } else if s.engine == Checking || s.engine == Ready {
      t, step := AdvanceLocked(s, p);
    } else {
      assert s.local == [] && s.queue != [];
      t, step := TowardsLock(s);
      CloserIsNearer(s, t, p);
    }
  }

  lemma {:induction false} Progress(s: State, p: nat) returns (states: seq<State>, steps: seq<Step>)
    requires Inv(s) && p < |s.enqueued| && !Stuck(s, p)
    ensures Path(s, states, steps) && |Last(states).processed| > p && Inv(Last(states))
    decreases Stage(s, p), Distance(s, p), Rest(s, p)
  {
    if |s.processed| > p {
      return [s], [];
    }
    var t, step;
    if HasBatch(s.engine) {
      t, step := AdvanceBatch(s, p);
    } else {
      t, step := AdvanceLoop(s, p);
    }
    StepKeepsInv(s, t, step);
    if |t.processed| > p {
      states, steps := [t], [];
    } else {
      states, steps := Progress(t, p);
    }
    PathOn(s, t, step, states, steps);
    states, steps := [s] + states, [step] + steps;
  }

  lemma NoClientEnters(s: State, t: State, step: Step)
    requires NextStep(s, t, step) && !s.lock.ByClient? && (!OfClient(step) || step.Notify?)
    ensures !t.lock.ByClient?
  {}

  /** If no client holds the lock at first, such a run is one of the loop and of notifications. */
  lemma {:induction false} OnlyLoopAndNotify(s: State, states: seq<State>, steps: seq<Step>, k: nat)
    requires Path(s, states, steps) && !s.lock.ByClient? && k < |steps|
    ensures !states[k].lock.ByClient?
    ensures (!OfClient(steps[k]) && !steps[k].WakeSpuriously?) || steps[k].Notify?
  {
    if k > 0 {
      OnlyLoopAndNotify(s, states, steps, k - 1);
      assert NextStep(states[k - 1], states[k - 1 + 1], steps[k - 1]) && Helpful(states[k - 1], steps[k - 1]);
      NoClientEnters(states[k - 1], states[k], steps[k - 1]);
    }
    assert Helpful(states[k], steps[k]);
  }

  // ----- and a stuck one never is ------------------------------------------------------------------

  /** Any run from s on. */
  ghost predicate Continues(s: State, states: seq<State>) {
    && states != [] && states[0] == s
    && forall k :: 0 <= k < |states| - 1 ==> Next(states[k], states[k + 1])
  }

  lemma StuckWhileClientsMove(s: State, t: State, step: Step, p: nat)
    requires Stuck(s, p) && NextStep(s, t, step) && OfClient(step)
    ensures Stuck(t, p)
  {}

  lemma StuckStays(s: State, t: State, step: Step, p: nat)
    requires Stuck(s, p) && NextStep(s, t, step)
    ensures Stuck(t, p)
  {
    if OfClient(step) {
      StuckWhileClientsMove(s, t, step, p);
    }
  }

  lemma {:induction false} StuckForever(states: seq<State>, k: nat, p: nat)
    requires states != [] && Continues(states[0], states) && Stuck(states[0], p) && k < |states|
    ensures Stuck(states[k], p)
    decreases k
  {
    if k > 0 {
      StuckForever(states, k - 1, p);
      assert Next(states[k - 1], states[k - 1 + 1]);
      var step :| NextStep(states[k - 1], states[k], step);
      StuckStays(states[k - 1], states[k], step, p);
    }
  }

  lemma PathContinues(s: State, states: seq<State>, steps: seq<Step>)
    requires Path(s, states, steps)
    ensures Continues(s, states)
  {
    forall k | 0 <= k < |states| - 1 ensures Next(states[k], states[k + 1]) {
      assert NextStep(states[k], states[k + 1], steps[k]);
    }
  }

  /** In every reachable state, what is enqueued can still be processed unless the loop has ended
      or will before: an exit request is read before the queue is. */
  lemma CanBeProcessedIff(run: seq<State>, k: nat, p: nat)
    requires IsRun(run) && k < |run| && |run[k].processed| <= p < |run[k].enqueued|
    ensures (exists states :: Continues(run[k], states) && |Last(states).processed| > p) <==> !Stuck(run[k], p)
    ensures !run[k].exitNow ==> !Stuck(run[k], p)
  {
    RunKeepsInv(run, k);
    var s := run[k];
    if Stuck(s, p) {
      forall states | Continues(s, states) ensures |Last(states).processed| <= p {
        StuckForever(states, |states| - 1, p);
      }
    } else {
      var states, steps := Progress(s, p);
      PathContinues(s, states, steps);
    }
  }

  // ----- a call returns --------------------------------------------------------------------------

  /** While a call waits, only its return changes it. */
  lemma {:induction false} CallWaits(s: State, states: seq<State>, steps: seq<Step>)
    requires Inv(s) && Path(s, states, steps) && s.handshake.Enqueued?
    ensures Inv(Last(states)) && Last(states).handshake == s.handshake
    decreases |steps|
  {
    if steps != [] {
      var t := states[1];
      assert NextStep(states[0], states[0 + 1], steps[0]) && Helpful(states[0], steps[0]);
      StepKeepsInv(s, t, steps[0]);
      StillCalled(s, t, steps[0]);
      assert Path(t, states[1..], steps[1..]) by {
        forall k | 0 <= k < |steps[1..]|
          ensures NextStep(states[1..][k], states[1..][k + 1], steps[1..][k]) && Helpful(states[1..][k], steps[1..][k])
        {
          assert NextStep(states[k + 1], states[k + 1 + 1], steps[k + 1]) && Helpful(states[k + 1], steps[k + 1]);
        }
      }
      CallWaits(t, states[1..], steps[1..]);
    }
  }

  lemma StillCalled(s: State, t: State, step: Step)
    requires Inv(s) && NextStep(s, t, step) && Helpful(s, step) && s.handshake.Enqueued?
    ensures t.handshake == s.handshake
  {
    if step.Push? {
      assert CallOk(s, step.client);
    }
  }

  ghost function ToReturn(s: State): nat {
    match Pc(s, CONTROLLER) case Counting => 3 case Leaving => 2 case Notifying => 1 case _ => 0
  }

  lemma ControllerMoves(s: State) returns (t: State, step: Step)
    requires ClientOk(s, CONTROLLER) && AfterPush(Pc(s, CONTROLLER)) && Pc(s, CONTROLLER) != Idle
    ensures NextStep(s, t, step) && Helpful(s, step)
    ensures ToReturn(t) < ToReturn(s) && t.handshake == s.handshake && t.processed == s.processed
  {
    var i := CONTROLLER;
    match Pc(s, i)
    case Counting => t, step := SetPc(s, i, Leaving).(pendingCnt := s.pendingCnt + 1), Count(i);
    case Leaving => t, step := SetPc(s, i, if s.engineWaiting then Notifying else Idle).(lock := Free), Leave(i);
    case Notifying => t, step := SetPc(s, i, Idle).(engine := if s.engine == Asleep then Woken else s.engine), Notify(i);
  }

  /** The controller leaves its critical section and notifies the loop. */
  lemma {:induction false} ControllerArrives(s: State) returns (states: seq<State>, steps: seq<Step>)
    requires Inv(s) && s.handshake.Enqueued?
    ensures Path(s, states, steps) && Pc(Last(states), CONTROLLER) == Idle && Last(states).processed == s.processed
    decreases ToReturn(s)
  {
    if Pc(s, CONTROLLER) == Idle {
      return [s], [];
    }
    assert ClientOk(s, CONTROLLER);
    var t, step := ControllerMoves(s);
    StepKeepsInv(s, t, step);
    states, steps := ControllerArrives(t);
    PathOn(s, t, step, states, steps);
    states, steps := [s] + states, [step] + steps;
  }

  lemma PathThen(s: State, a: seq<State>, x: seq<Step>, b: seq<State>, y: seq<Step>)
    requires Path(s, a, x) && Path(Last(a), b, y)
    ensures Path(s, a + b[1..], x + y) && Last(a + b[1..]) == Last(b)
  {
    var states, steps, n := a + b[1..], x + y, |x|;
    assert forall k :: n <= k < |states| ==> states[k] == b[k - n];
    forall k | 0 <= k < |steps| ensures NextStep(states[k], states[k + 1], steps[k]) && Helpful(states[k], steps[k]) {
      if k < n {
        assert NextStep(a[k], a[k + 1], x[k]) && Helpful(a[k], x[k]);
      } else {
        assert NextStep(b[k - n], b[k - n + 1], y[k - n]) && Helpful(b[k - n], y[k - n]);
      }
    }
  }

  /** A waiting call can be worked off and return. */
  lemma CallReturns(s: State) returns (states: seq<State>, steps: seq<Step>, t: State)
    requires Inv(s) && s.handshake.Enqueued? && !Stuck(s, s.handshake.position - 1)
    ensures Path(s, states, steps) && Last(states).handshake == s.handshake && ReturnStep(Last(states), t)
  {
    var a, x := Progress(s, s.handshake.position - 1);
    CallWaits(s, a, x);
    var b, y := ControllerArrives(Last(a));
    CallWaits(Last(a), b, y);
    PathThen(s, a, x, b, y);
    states, steps := a + b[1..], x + y;
    t := Last(states).(handshake := NoCall);
  }

  ghost predicate ReturnsAt(s: State, states: seq<State>, t: State) {
    Continues(s, states) && Last(states).handshake == s.handshake && ReturnStep(Last(states), t)
  }

  lemma {:induction false} ContinuesInv(states: seq<State>, k: nat)
    requires states != [] && Continues(states[0], states) && Inv(states[0]) && k < |states|
    ensures Inv(states[k])
    decreases k
  {
    if k > 0 {
      ContinuesInv(states, k - 1);
      assert Next(states[k - 1], states[k - 1 + 1]);
      var step :| NextStep(states[k - 1], states[k], step);
      StepKeepsInv(states[k - 1], states[k], step);
    }
  }

  /** In every reachable state in which a Reload or Unload call waits, the call can still return
      if and only if the loop has not ended, and will not end, before its instruction is taken. */
  lemma CallCanReturnIff(run: seq<State>, k: nat)
    requires IsRun(run) && k < |run| && run[k].handshake.Enqueued?
    ensures run[k].handshake.position > 0
    ensures (exists states, t :: ReturnsAt(run[k], states, t)) <==> !Stuck(run[k], run[k].handshake.position - 1)
  {
    RunKeepsInv(run, k);
    var s := run[k];
    var p := s.handshake.position - 1;
    if Stuck(s, p) {
      forall states, t ensures !ReturnsAt(s, states, t) {
        if ReturnsAt(s, states, t) {
          StuckForever(states, |states| - 1, p);
          ContinuesInv(states, |states| - 1);
          assert false;
        }
      }
    } else {
      var states, steps, t := CallReturns(s);
      PathContinues(s, states, steps);
      assert ReturnsAt(s, states, t);
    }
  }

  lemma RunOn(run: seq<State>, t: State, step: Step) returns (longer: seq<State>)
    requires IsRun(run) && NextStep(Last(run), t, step)
    ensures IsRun(longer) && Last(longer) == t
  {
    longer := run + [t];
    forall k | 0 <= k < |longer| - 1 ensures Next(longer[k], longer[k + 1]) {
      assert k < |run| - 1 ==> Next(run[k], run[k + 1]);
      assert k == |run| - 1 ==> NextStep(longer[k], longer[k + 1], step);
    }
  }

  /** An exit is requested and the loop ends. */
  lemma ExitedRun() returns (run: seq<State>)
    ensures IsRun(run) && Last(run).engine == Exited && Last(run).exitNow && Last(run).lock == Free
    ensures Last(run).handshake == NoCall && Last(run).enqueued == Last(run).processed == []
    ensures Pc(Last(run), CONTROLLER) == Idle
  {
    var s := State(Free, [], 0, false, false, Top, false, [], map[], false, false, NoCall, [], []);
    run := [s];
    var t := SetPc(s, 1, WantExit);
    run := RunOn(run, t, BeginExit(1));
    var u := SetPc(t, 1, Exiting).(lock := ByClient(1));
    run := RunOn(run, u, TakeLockToExit(1));
    var v := SetPc(u, 1, Notifying).(lock := Free, exitNow := true);
    run := RunOn(run, v, SetExit(1));
    run := RunOn(run, v.(engine := Exited), TestExit);
  }

  /** After that a Reload call waits for ever. */
  lemma CallAfterExit() returns (run: seq<State>)
    ensures IsRun(run) && Last(run).handshake == Enqueued(Reload, 1) && Stuck(Last(run), 0)
  {
    run := ExitedRun();
    var x, s := Control(Reload), Last(run);
    var t := SetPc(s, CONTROLLER, WantLock(x)).(handshake := Started(Reload), reloadFinished := false);
    run := RunOn(run, t, BeginCall(CONTROLLER, x));
    var u := SetPc(t, CONTROLLER, Pushing(x)).(lock := ByClient(CONTROLLER));
    run := RunOn(run, u, TakeLock(CONTROLLER));
    var v := SetPc(u, CONTROLLER, Counting).(queue := u.queue + [x], enqueued := u.enqueued + [x],
                                             handshake := Enqueued(Reload, 1));
    run := RunOn(run, v, Push(CONTROLLER));
  }

  // ----- the loop ends on request, and only then ---------------------------------------------------

  ghost function ToExit(s: State): nat {
    match s.engine
    case Exited => 0
    case Top => 1
    case Processing => 2
    case Cleared => 3
    case Copied => 4
    case Ready => 5
    case Checking => 6
    case EngineWantLock => 7
    case Woken => 7
    case Asleep => 8
  }

  ghost function ToExitRest(s: State): nat {
    if s.engine == Processing then |s.local| else HolderSteps(s)
  }

  lemma AdvanceCritical(s: State) returns (t: State, step: Step)
    requires s.exitNow && EngineInCritical(s.engine)
    ensures NextStep(s, t, step) && Helpful(s, step) && t.exitNow && ToExit(t) < ToExit(s)
  {
    match s.engine
    case Checking => t, step := s.(engine := Ready, engineWaiting := false), Check;
    case Ready => t, step := s.(engine := Copied, local := s.queue), Copy;
    case Copied => t, step := s.(engine := Cleared, queue := []), Clear;
    case Cleared => t, step := s.(engine := Processing, pendingCnt := 0, lock := Free), ResetCount;
  }

  lemma AdvanceToExit(s: State) returns (t: State, step: Step)
    requires Inv(s) && s.exitNow && s.engine != Exited
    ensures NextStep(s, t, step) && Helpful(s, step) && t.exitNow
    ensures ToExit(t) < ToExit(s) || (ToExit(t) == ToExit(s) && ToExitRest(t) < ToExitRest(s))
  {
    if EngineInCritical(s.engine) {
      t, step := AdvanceCritical(s);
    } else if s.engine == Top {
      t, step := s.(engine := Exited), TestExit;
    } else if s.engine == Processing {
      t, step := AdvanceProcessing(s);
    } else {
      t, step := TowardsLock(s);
    }
  }

  lemma {:induction false} ExitPath(s: State) returns (states: seq<State>, steps: seq<Step>)
    requires Inv(s) && s.exitNow
    ensures Path(s, states, steps) && Last(states).engine == Exited
    decreases ToExit(s), ToExitRest(s)
  {
    if s.engine == Exited {
      return [s], [];
    }
    var t, step := AdvanceToExit(s);
    StepKeepsInv(s, t, step);
    states, steps := ExitPath(t);
    PathOn(s, t, step, states, steps);
    states, steps := [s] + states, [step] + steps;
  }

  /** In every reachable state the loop has ended only if an exit was requested, and if one was,
      it can still end. */
  lemma ExitsOnRequest(run: seq<State>, k: nat) returns (states: seq<State>, steps: seq<Step>)
    requires IsRun(run) && k < |run|
    ensures run[k].engine == Exited ==> run[k].exitNow
    ensures run[k].exitNow ==> Path(run[k], states, steps) && Last(states).engine == Exited
  {
    RunKeepsInv(run, k);
    if run[k].exitNow {
      states, steps := ExitPath(run[k]);
    } else {
      states, steps := [run[k]], [];
    }
  }
}
