/**
  The threaded engine: any number of client threads enqueue instructions under a lock, the
  background loop sleeps on a condition variable, takes the whole queue at once and works
  through it.  Modelled as a step system whose steps interleave freely; every access to a
  shared variable outside a critical section is a step of its own.
  */
module ThreadedEngine {

  datatype Kind = Reload | Unload

  /** Control instructions have a client waiting for them; the others are told apart by `tag`. */
  datatype Instruction = Control(kind: Kind) | Ordinary(tag: int)

  type ClientId = nat

  /** The one client that reloads and unloads. */
  const CONTROLLER: ClientId := 0

  datatype Lock = Free | ByClient(client: ClientId) | ByEngine

  datatype ClientPc =
    | Idle
    | WantLock(instruction: Instruction)
    | Pushing(instruction: Instruction)   // holds the lock
    | Counting                            // holds the lock, instruction is in the queue
    | Leaving                             // holds the lock, about to read engine_waiting_
    | WantExit
    | Exiting                             // holds the lock
    | Notifying                           // outside the lock, about to call notify_one

  datatype EnginePc =
    | Top                                 // the test of exit_now_
    | EngineWantLock
    | Checking                            // holds the lock, about to evaluate the wait predicate
    | Asleep                              // in the wait set of the condition variable
    | Woken                               // about to take the lock again
    | Ready                               // holds the lock, predicate was true
    | Copied                              // holds the lock, queue copied
    | Cleared                             // holds the lock, queue cleared
    | Processing
    | Exited

  datatype Handshake = NoCall | Started(kind: Kind) | Enqueued(kind: Kind, position: nat)

  datatype State = State(
    lock: Lock,
    queue: seq<Instruction>,
    pendingCnt: nat,
    engineWaiting: bool,
    exitNow: bool,
    engine: EnginePc,
    busy: bool,                           // the background engine has unfinished requests
    local: seq<Instruction>,
    clients: map<ClientId, ClientPc>,
    reloadFinished: bool,
    unloadFinished: bool,
    handshake: Handshake,
    // history
    enqueued: seq<Instruction>,           // in the order of the critical sections
    processed: seq<Instruction>)

  function Pc(s: State, i: ClientId): ClientPc {
    if i in s.clients then s.clients[i] else Idle
  }

  function Finished(s: State, kind: Kind): bool {
    match kind case Reload => s.reloadFinished case Unload => s.unloadFinished
  }

  function SetPc(s: State, i: ClientId, pc: ClientPc): State {
    s.(clients := s.clients[i := pc])
  }

  datatype Step =
    | BeginCall(client: ClientId, instruction: Instruction)
    | TakeLock(client: ClientId)
    | Push(client: ClientId)
    | Count(client: ClientId)
    | Leave(client: ClientId)
    | BeginExit(client: ClientId)
    | TakeLockToExit(client: ClientId)
    | SetExit(client: ClientId)
    | Notify(client: ClientId)
    | ReturnFromCall
    | TestExit
    | EngineTakeLock
    | Check
    | WakeSpuriously
    | Copy
    | Clear
    | ResetCount
    | Process(busy: bool)
    | RunEngine(busy: bool)

  ghost predicate Init(s: State) {
    s == State(Free, [], 0, false, false, Top, false, [], map[], false, false, NoCall, [], [])
  }

  /** The wait predicate of the background loop. */
  predicate MayProceed(s: State) {
    s.busy || s.pendingCnt > 0 || s.exitNow
  }

  predicate IsControl(x: Instruction) { x.Control? }

  // ----- the client steps ------------------------------------------------------------------

  /** A call begins.  Reload and Unload first clear their flag; only the controller makes such
      calls, one at a time. */
  ghost predicate BeginCallStep(s: State, t: State, i: ClientId, x: Instruction) {
    && Pc(s, i) == Idle && (i == CONTROLLER ==> s.handshake == NoCall) && (x.Control? ==> i == CONTROLLER)
    && t == if x.Control? then
              SetPc(s, i, WantLock(x)).(
                handshake := Started(x.kind),
                reloadFinished := if x.kind == Reload then false else s.reloadFinished,
                unloadFinished := if x.kind == Unload then false else s.unloadFinished)
            else SetPc(s, i, WantLock(x))
  }

  ghost predicate TakeLockStep(s: State, t: State, i: ClientId) {
    && Pc(s, i).WantLock? && s.lock == Free
    && t == SetPc(s, i, Pushing(Pc(s, i).instruction)).(lock := ByClient(i))
  }

  ghost predicate PushStep(s: State, t: State, i: ClientId) {
    && Pc(s, i).Pushing?
    && var x := Pc(s, i).instruction;
    && t == SetPc(s, i, Counting).(
              queue := s.queue + [x],
              enqueued := s.enqueued + [x],
              handshake := if x.Control? then Enqueued(x.kind, |s.enqueued| + 1) else s.handshake)
  }

  ghost predicate CountStep(s: State, t: State, i: ClientId) {
    Pc(s, i) == Counting && t == SetPc(s, i, Leaving).(pendingCnt := s.pendingCnt + 1)
  }

  /** The client notes whether the engine waits, and releases the lock. */
  ghost predicate LeaveStep(s: State, t: State, i: ClientId) {
    Pc(s, i) == Leaving && t == SetPc(s, i, if s.engineWaiting then Notifying else Idle).(lock := Free)
  }

  ghost predicate BeginExitStep(s: State, t: State, i: ClientId) {
    Pc(s, i) == Idle && (i == CONTROLLER ==> s.handshake == NoCall) && t == SetPc(s, i, WantExit)
  }

  ghost predicate TakeLockToExitStep(s: State, t: State, i: ClientId) {
    Pc(s, i) == WantExit && s.lock == Free && t == SetPc(s, i, Exiting).(lock := ByClient(i))
  }

  ghost predicate SetExitStep(s: State, t: State, i: ClientId) {
    Pc(s, i) == Exiting && t == SetPc(s, i, Notifying).(lock := Free, exitNow := true)
  }

  ghost predicate NotifyStep(s: State, t: State, i: ClientId) {
    Pc(s, i) == Notifying && t == SetPc(s, i, Idle).(engine := if s.engine == Asleep then Woken else s.engine)
  }

  ghost predicate ReturnStep(s: State, t: State) {
    && s.handshake.Enqueued? && Pc(s, CONTROLLER) == Idle && Finished(s, s.handshake.kind)
    && t == s.(handshake := NoCall)
  }

  // ----- the steps of the background loop -----------------------------------------------------

  ghost predicate TestExitStep(s: State, t: State) {
    s.engine == Top && t == s.(engine := if s.exitNow then Exited else EngineWantLock)
  }

  ghost predicate EngineTakeLockStep(s: State, t: State) {
    && (s.engine == EngineWantLock || s.engine == Woken) && s.lock == Free
    && t == s.(engine := Checking, lock := ByEngine, engineWaiting := true)
  }

  ghost predicate CheckStep(s: State, t: State) {
    && s.engine == Checking
    && t == if MayProceed(s) then s.(engine := Ready, engineWaiting := false)
            else s.(engine := Asleep, lock := Free)
  }

  ghost predicate WakeStep(s: State, t: State) {
    s.engine == Asleep && t == s.(engine := Woken)
  }

  ghost predicate CopyStep(s: State, t: State) {
    s.engine == Ready && t == s.(engine := Copied, local := s.queue)
  }

  ghost predicate ClearStep(s: State, t: State) {
    s.engine == Copied && t == s.(engine := Cleared, queue := [])
  }

  ghost predicate ResetCountStep(s: State, t: State) {
    s.engine == Cleared && t == s.(engine := Processing, pendingCnt := 0, lock := Free)
  }

  ghost predicate ProcessStep(s: State, t: State, busy: bool) {
    && s.engine == Processing && s.local != []
    && var x := s.local[0];
    && t == s.(local := s.local[1..], processed := s.processed + [x], busy := busy,
               unloadFinished := s.unloadFinished || x.Control?,
               reloadFinished := s.reloadFinished || x == Control(Reload))
  }

  ghost predicate RunEngineStep(s: State, t: State, busy: bool) {
    s.engine == Processing && s.local == [] && t == s.(engine := Top, busy := busy)
  }

  ghost predicate NextStep(s: State, t: State, step: Step) {
    match step
    case BeginCall(i, x) => BeginCallStep(s, t, i, x)
    case TakeLock(i) => TakeLockStep(s, t, i)
    case Push(i) => PushStep(s, t, i)
    case Count(i) => CountStep(s, t, i)
    case Leave(i) => LeaveStep(s, t, i)
    case BeginExit(i) => BeginExitStep(s, t, i)
    case TakeLockToExit(i) => TakeLockToExitStep(s, t, i)
    case SetExit(i) => SetExitStep(s, t, i)
    case Notify(i) => NotifyStep(s, t, i)
    case ReturnFromCall => ReturnStep(s, t)
    case TestExit => TestExitStep(s, t)
    case EngineTakeLock => EngineTakeLockStep(s, t)
    case Check => CheckStep(s, t)
    case WakeSpuriously => WakeStep(s, t)
    case Copy => CopyStep(s, t)
    case Clear => ClearStep(s, t)
    case ResetCount => ResetCountStep(s, t)
    case Process(busy) => ProcessStep(s, t, busy)
    case RunEngine(busy) => RunEngineStep(s, t, busy)
  }

  ghost predicate Next(s: State, t: State) {
    exists step :: NextStep(s, t, step)
  }

  predicate InCritical(pc: ClientPc) { pc.Pushing? || pc.Counting? || pc.Leaving? || pc.Exiting? }

  predicate EngineInCritical(pc: EnginePc) { pc.Checking? || pc.Ready? || pc.Copied? || pc.Cleared? }

  predicate HasBatch(pc: EnginePc) { pc.Copied? || pc.Cleared? || pc.Processing? }

  // ----- the invariant ----------------------------------------------------------------------

  /** A client is in a critical section exactly when it holds the lock. */
  ghost predicate ClientOk(s: State, i: ClientId) {
    InCritical(Pc(s, i)) <==> s.lock == ByClient(i)
  }

  ghost predicate LockOk(s: State) {
    && (EngineInCritical(s.engine) <==> s.lock == ByEngine)
    && (forall i {:trigger ClientOk(s, i)} :: ClientOk(s, i))
    && (s.engine.Checking? || s.engine.Asleep? || s.engine.Woken? ==> s.engineWaiting)
  }

  /** Only the controller is on its way to enqueue a control instruction, inside its call. */
  ghost predicate CallOk(s: State, i: ClientId) {
    (Pc(s, i).WantLock? || Pc(s, i).Pushing?) && Pc(s, i).instruction.Control? ==>
      i == CONTROLLER && s.handshake == Started(Pc(s, i).instruction.kind)
  }

  ghost predicate CallsOk(s: State) {
    forall i {:trigger CallOk(s, i)} :: CallOk(s, i)
  }

  ghost predicate CountOk(s: State) {
    if s.lock.ByClient? && Pc(s, s.lock.client) == Counting then s.pendingCnt + 1 == |s.queue|
    else if s.engine == Cleared then s.queue == []
    else s.pendingCnt == |s.queue|
  }

  /** Nothing is lost, duplicated or reordered. */
  ghost predicate OrderOk(s: State) {
    && (if s.engine == Copied then s.local == s.queue && s.processed + s.queue == s.enqueued
        else s.processed + s.local + s.queue == s.enqueued)
    && (!HasBatch(s.engine) ==> s.local == [])
  }

  /** A client that will wake the engine, or will decide to. */
  ghost predicate WillNotify(s: State, i: ClientId) {
    Pc(s, i).Counting? || Pc(s, i).Leaving? || Pc(s, i).Notifying?
  }

  /** No wake-up is lost. */
  ghost predicate WakeOk(s: State) {
    s.engine == Asleep ==>
      && !s.busy
      && (s.queue != [] || s.exitNow ==> exists i :: WillNotify(s, i))
  }

  /** No instruction from position `n` on is a control instruction, the one before `except` aside. */
  ghost predicate NoControlFrom(log: seq<Instruction>, n: nat, except: nat) {
    forall j :: n <= j < |log| && j + 1 != except ==> !IsControl(log[j])
  }

  /** Between enqueueing an instruction and waiting for it. */
  predicate AfterPush(pc: ClientPc) { pc.Idle? || pc.Counting? || pc.Leaving? || pc.Notifying? }

  /** The only control instruction not yet processed is the one its caller waits for, and its
      flag is set exactly when it has been processed. */
  ghost predicate HandshakeOk(s: State) {
    match s.handshake
    case NoCall => NoControlFrom(s.enqueued, |s.processed|, 0)
    case Started(kind) =>
      && NoControlFrom(s.enqueued, |s.processed|, 0) && !Finished(s, kind)
      && (Pc(s, CONTROLLER) == WantLock(Control(kind)) || Pc(s, CONTROLLER) == Pushing(Control(kind)))
    case Enqueued(kind, position) =>
      && 0 < position <= |s.enqueued| && s.enqueued[position - 1] == Control(kind)
      && NoControlFrom(s.enqueued, |s.processed|, position)
      && (Finished(s, kind) <==> position <= |s.processed|)
      && AfterPush(Pc(s, CONTROLLER))
  }

  /** The loop ends only on request. */
  ghost predicate ExitOk(s: State) {
    s.engine == Exited ==> s.exitNow
  }

  ghost predicate Inv(s: State) {
    && LockOk(s)
    && CallsOk(s)
    && CountOk(s)
    && OrderOk(s)
    && WakeOk(s)
    && HandshakeOk(s)
    && ExitOk(s)
  }

  // ----- what a step of one client leaves alone -----------------------------------------------

  /** Client `i` moves and the lock changes hands at most between it and nobody. */
  lemma OneMovedLock(s: State, t: State, i: ClientId)
    requires LockOk(s)
    requires t.clients == s.clients[i := Pc(t, i)] && ClientOk(t, i)
    requires t.lock == s.lock || (s.lock == Free && t.lock == ByClient(i)) || (s.lock == ByClient(i) && t.lock == Free)
    requires t.engineWaiting == s.engineWaiting && (t.engine == s.engine || (s.engine == Asleep && t.engine == Woken))
    ensures LockOk(t)
  {
    forall j ensures ClientOk(t, j) {
      assert ClientOk(s, j) && (j != i ==> Pc(t, j) == Pc(s, j));
    }
  }

  lemma OneMovedCalls(s: State, t: State, i: ClientId)
    requires CallsOk(s) && t.clients == s.clients[i := Pc(t, i)] && CallOk(t, i)
    requires t.handshake == s.handshake || i == CONTROLLER
    ensures CallsOk(t)
  {
    forall j ensures CallOk(t, j) {
      assert CallOk(s, j) && (j != i ==> Pc(t, j) == Pc(s, j));
    }
  }

  /** Whoever was about to wake the engine still is. */
  lemma OneMovedWake(s: State, t: State, i: ClientId)
    requires WakeOk(s) && t.clients == s.clients[i := Pc(t, i)]
    requires t.engine == s.engine && t.busy == s.busy && t.queue == s.queue && t.exitNow == s.exitNow
    requires WillNotify(s, i) ==> WillNotify(t, i) || t.engine != Asleep
    ensures WakeOk(t)
  {
    if t.engine == Asleep && (t.queue != [] || t.exitNow) {
      var j :| WillNotify(s, j);
      assert WillNotify(t, j);
    }
  }

  /** The log, the flags and the call stay, and client `i` moves neither into nor out of a
      pending control call. */
  lemma HandshakeUntouched(s: State, t: State)
    requires HandshakeOk(s)
    requires t.handshake == s.handshake && t.enqueued == s.enqueued && t.processed == s.processed
    requires t.reloadFinished == s.reloadFinished && t.unloadFinished == s.unloadFinished
    requires Pc(t, CONTROLLER) == Pc(s, CONTROLLER)
          || (Pc(s, CONTROLLER).WantLock? && Pc(t, CONTROLLER) == Pushing(Pc(s, CONTROLLER).instruction))
          || (AfterPush(Pc(s, CONTROLLER)) && AfterPush(Pc(t, CONTROLLER)))
          || s.handshake == NoCall
    ensures HandshakeOk(t)
  {
  }

  // ----- every step keeps the invariant ---------------------------------------------------------

  lemma BeginCallKeepsInv(s: State, t: State, i: ClientId, x: Instruction)
    requires Inv(s) && BeginCallStep(s, t, i, x)
    ensures Inv(t)
  {
    assert ClientOk(s, i);
    OneMovedLock(s, t, i);
    OneMovedCalls(s, t, i);
    OneMovedWake(s, t, i);
    if x.Ordinary? { HandshakeUntouched(s, t); }
  }

  lemma TakeLockKeepsInv(s: State, t: State, i: ClientId)
    requires Inv(s) && TakeLockStep(s, t, i)
    ensures Inv(t)
  {
    assert ClientOk(s, i) && CallOk(s, i);
    OneMovedLock(s, t, i);
    OneMovedCalls(s, t, i);
    OneMovedWake(s, t, i);
    HandshakeUntouched(s, t);
  }

  lemma PushKeepsInv(s: State, t: State, i: ClientId)
    requires Inv(s) && PushStep(s, t, i)
    ensures Inv(t)
  {
    assert ClientOk(s, i) && CallOk(s, i);
    OneMovedLock(s, t, i);
    OneMovedCalls(s, t, i);
    assert WillNotify(t, i);
    PushKeepsOrder(s, t, i);
  }

  lemma PushKeepsOrder(s: State, t: State, i: ClientId)
    requires OrderOk(s) && s.engine != Copied && CallOk(s, i) && HandshakeOk(s) && PushStep(s, t, i)
    ensures OrderOk(t)
    ensures HandshakeOk(t)
  {
    var x := Pc(s, i).instruction;
    assert s.processed + s.local + (s.queue + [x]) == s.processed + s.local + s.queue + [x];
  }

  lemma CountKeepsInv(s: State, t: State, i: ClientId)
    requires Inv(s) && CountStep(s, t, i)
    ensures Inv(t)
  {
    assert ClientOk(s, i);
    OneMovedLock(s, t, i);
    OneMovedCalls(s, t, i);
    OneMovedWake(s, t, i);
    HandshakeUntouched(s, t);
  }

  /** While the engine sleeps, everyone who leaves the lock has seen that it waits. */
  lemma LeaveKeepsInv(s: State, t: State, i: ClientId)
    requires Inv(s) && LeaveStep(s, t, i)
    ensures Inv(t)
  {
    assert ClientOk(s, i);
    OneMovedLock(s, t, i);
    OneMovedCalls(s, t, i);
    OneMovedWake(s, t, i);
    HandshakeUntouched(s, t);
  }

  lemma BeginExitKeepsInv(s: State, t: State, i: ClientId)
    requires Inv(s) && BeginExitStep(s, t, i)
    ensures Inv(t)
  {
    assert ClientOk(s, i);
    OneMovedLock(s, t, i);
    OneMovedCalls(s, t, i);
    OneMovedWake(s, t, i);
    HandshakeUntouched(s, t);
  }

  lemma TakeLockToExitKeepsInv(s: State, t: State, i: ClientId)
    requires Inv(s) && TakeLockToExitStep(s, t, i)
    ensures Inv(t)
  {
    assert ClientOk(s, i);
    OneMovedLock(s, t, i);
    OneMovedCalls(s, t, i);
    OneMovedWake(s, t, i);
    HandshakeUntouched(s, t);
  }

  lemma SetExitKeepsInv(s: State, t: State, i: ClientId)
    requires Inv(s) && SetExitStep(s, t, i)
    ensures Inv(t)
  {
    assert ClientOk(s, i);
    OneMovedLock(s, t, i);
    OneMovedCalls(s, t, i);
    assert WillNotify(t, i);
    HandshakeUntouched(s, t);
  }

  lemma NotifyKeepsInv(s: State, t: State, i: ClientId)
    requires Inv(s) && NotifyStep(s, t, i)
    ensures Inv(t)
  {
    assert ClientOk(s, i);
    OneMovedLock(s, t, i);
    OneMovedCalls(s, t, i);
    HandshakeUntouched(s, t);
  }

  lemma ReturnKeepsInv(s: State, t: State)
    requires Inv(s) && ReturnStep(s, t)
    ensures Inv(t)
  {
    forall i ensures ClientOk(t, i) { assert ClientOk(s, i); }
    forall i ensures CallOk(t, i) { assert CallOk(s, i); }
    if t.engine == Asleep && (t.queue != [] || t.exitNow) {
      var j :| WillNotify(s, j);
      assert WillNotify(t, j);
    }
  }

  /** The engine moves; the clients, the call and the log stay. */
  lemma EngineMoved(s: State, t: State)
    requires Inv(s) && t.clients == s.clients && t.handshake == s.handshake
    requires t.lock == s.lock || (s.lock == Free && t.lock == ByEngine) || (s.lock == ByEngine && t.lock == Free)
    requires t.enqueued == s.enqueued
    ensures (forall i {:trigger ClientOk(t, i)} :: ClientOk(t, i))
    ensures CallsOk(t)
    ensures t.processed == s.processed && t.reloadFinished == s.reloadFinished && t.unloadFinished == s.unloadFinished ==>
              HandshakeOk(t)
  {
    forall i ensures ClientOk(t, i) { assert ClientOk(s, i); }
    forall i ensures CallOk(t, i) { assert CallOk(s, i); }
  }

  lemma EngineMoveKeepsInv(s: State, t: State)
    requires Inv(s)
    requires TestExitStep(s, t) || EngineTakeLockStep(s, t) || WakeStep(s, t)
    ensures Inv(t)
  {
    EngineMoved(s, t);
  }

  /** The engine goes to sleep only when nothing is queued. */
  lemma CheckKeepsInv(s: State, t: State)
    requires Inv(s) && CheckStep(s, t)
    ensures Inv(t)
  {
    EngineMoved(s, t);
  }

  lemma TakeBatchKeepsInv(s: State, t: State)
    requires Inv(s)
    requires CopyStep(s, t) || ClearStep(s, t) || ResetCountStep(s, t)
    ensures Inv(t)
  {
    EngineMoved(s, t);
    assert s.processed + [] + s.queue == s.processed + s.queue;
    assert s.processed + s.local + [] == s.processed + s.local;
  }

  lemma ProcessKeepsInv(s: State, t: State, busy: bool)
    requires Inv(s) && ProcessStep(s, t, busy)
    ensures Inv(t)
  {
    EngineMoved(s, t);
    ProcessKeepsOrder(s, t, busy);
  }

  lemma ProcessKeepsOrder(s: State, t: State, busy: bool)
    requires OrderOk(s) && HandshakeOk(s) && ProcessStep(s, t, busy)
    ensures OrderOk(t)
    ensures HandshakeOk(t)
  {
    assert s.local == [s.local[0]] + s.local[1..];
    assert s.enqueued[|s.processed|] == s.local[0];
  }

  lemma RunEngineKeepsInv(s: State, t: State, busy: bool)
    requires Inv(s) && RunEngineStep(s, t, busy)
    ensures Inv(t)
  {
    EngineMoved(s, t);
  }

  lemma StepKeepsInv(s: State, t: State, step: Step)
    requires Inv(s) && NextStep(s, t, step)
    ensures Inv(t)
  {
    match step
    case BeginCall(i, x) => BeginCallKeepsInv(s, t, i, x);
    case TakeLock(i) => TakeLockKeepsInv(s, t, i);
    case Push(i) => PushKeepsInv(s, t, i);
    case Count(i) => CountKeepsInv(s, t, i);
    case Leave(i) => LeaveKeepsInv(s, t, i);
    case BeginExit(i) => BeginExitKeepsInv(s, t, i);
    case TakeLockToExit(i) => TakeLockToExitKeepsInv(s, t, i);
    case SetExit(i) => SetExitKeepsInv(s, t, i);
    case Notify(i) => NotifyKeepsInv(s, t, i);
    case ReturnFromCall => ReturnKeepsInv(s, t);
    case TestExit => EngineMoveKeepsInv(s, t);
    case EngineTakeLock => EngineMoveKeepsInv(s, t);
    case Check => CheckKeepsInv(s, t);
    case WakeSpuriously => EngineMoveKeepsInv(s, t);
    case Copy => TakeBatchKeepsInv(s, t);
    case Clear => TakeBatchKeepsInv(s, t);
    case ResetCount => TakeBatchKeepsInv(s, t);
    case Process(busy) => ProcessKeepsInv(s, t, busy);
    case RunEngine(busy) => RunEngineKeepsInv(s, t, busy);
  }

  // ----- whole runs -------------------------------------------------------------------------------

  ghost predicate IsRun(run: seq<State>) {
    && run != [] && Init(run[0])
    && forall k :: 0 <= k < |run| - 1 ==> Next(run[k], run[k + 1])
  }

  lemma {:induction false} RunKeepsInv(run: seq<State>, k: nat)
    requires IsRun(run) && k < |run|
    ensures Inv(run[k])
  {
    if k == 0 {
      var s := run[0];
      assert forall i :: Pc(s, i) == Idle;
    } else {
      RunKeepsInv(run, k - 1);
      assert Next(run[k - 1], run[k - 1 + 1]);
      var step :| NextStep(run[k - 1], run[k], step);
      StepKeepsInv(run[k - 1], run[k], step);
    }
  }

  ghost predicate LogsGrew(s: State, t: State) {
    s.enqueued <= t.enqueued && s.processed <= t.processed
  }

  predicate OfClient(step: Step) {
    step.BeginCall? || step.TakeLock? || step.Push? || step.Count? || step.Leave? ||
    step.BeginExit? || step.TakeLockToExit? || step.SetExit? || step.Notify? || step.ReturnFromCall?
  }

  lemma EngineLogs(s: State, t: State, step: Step)
    requires NextStep(s, t, step) && !OfClient(step)
    ensures LogsGrew(s, t)
  {}

  lemma ClientLogs(s: State, t: State, step: Step)
    requires NextStep(s, t, step) && OfClient(step)
    ensures LogsGrew(s, t)
  {}

  lemma {:induction false} LogsGrow(run: seq<State>, j: nat, k: nat)
    requires IsRun(run) && j <= k < |run|
    ensures run[j].enqueued <= run[k].enqueued
    ensures run[j].processed <= run[k].processed
    decreases k
  {
    if j < k {
      LogsGrow(run, j, k - 1);
      assert Next(run[k - 1], run[k - 1 + 1]);
      var step :| NextStep(run[k - 1], run[k], step);
      if OfClient(step) {
        ClientLogs(run[k - 1], run[k], step);
      } else {
        EngineLogs(run[k - 1], run[k], step);
      }
    }
  }

  /** Over all interleavings: what has been processed, what is being worked on and what is queued
      are together exactly the instructions enqueued, in lock order and each once; what was
      processed at one time is a prefix of what is enqueued at any later time; and the counter is
      the length of the queue whenever the lock is free. */
  lemma InstructionsInOrder(run: seq<State>, j: nat, k: nat)
    requires IsRun(run) && j <= k < |run|
    ensures run[k].lock == Free ==>
              && run[k].processed + run[k].local + run[k].queue == run[k].enqueued
              && run[k].pendingCnt == |run[k].queue|
    ensures run[j].processed <= run[k].enqueued
  {
    RunKeepsInv(run, k);
    RunKeepsInv(run, j);
    LogsGrow(run, j, k);
    assert run[k].lock == Free ==> run[k].engine != Copied;
    assert run[j].processed <= run[j].enqueued;
  }

  /** A sleeping loop with something to do has a notification on its way, and the notification
      wakes it. */
  lemma NoLostWakeup(run: seq<State>, k: nat) returns (i: ClientId, t: State)
    requires IsRun(run) && k < |run|
    requires run[k].engine == Asleep && run[k].lock == Free && (run[k].queue != [] || run[k].exitNow)
    ensures Pc(run[k], i) == Notifying && NotifyStep(run[k], t, i)
    ensures t.engine == Woken
  {
    RunKeepsInv(run, k);
    var s := run[k];
    i :| WillNotify(s, i);
    assert ClientOk(s, i);
    t := SetPc(s, i, Idle).(engine := Woken);
  }

  /** When Reload or Unload returns, its instruction and all those enqueued before it have been
      processed. */
  lemma CallReturnsAfterProcessing(run: seq<State>, k: nat)
    requires IsRun(run) && k + 1 < |run| && ReturnStep(run[k], run[k + 1])
    ensures var h := run[k].handshake;
            && 0 < h.position <= |run[k].processed| <= |run[k].enqueued|
            && run[k].processed[..h.position] == run[k].enqueued[..h.position]
            && run[k].processed[h.position - 1] == Control(h.kind)
  {
    RunKeepsInv(run, k);
    var s := run[k];
    assert s.processed <= s.enqueued;
  }
}
