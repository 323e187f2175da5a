/** The guard of the pipeline theorem cannot be dropped: from boot, two keystrokes and an
  unlucky clock tick halt the kernel.

  The shell's handler exits before init's.  It is queue_head and its predecessor has the PID
  just below, so next_pid falls back to a PID in use; init's handler exits and it falls back
  further, onto the shell's own PID.  The handler of the second keystroke gets that PID, and
  its exit removes the shell instead of itself: the last assertion of kill fails. */
module PipelineRace {
  import opened Common
  import opened ProcSpec
  import opened Ring
  import RoundRobin
  import opened Pipeline

  const CTX: Context := Context(0, 0)
  const KEY: Event := Key(30, 0, CTX)
  const RUN: Event := User(CTX)
  const CLOCK: Event := Clock(CTX)
  const WORD: nat := 0x1_0996_1A7A

  function Queue(locked: bool, word: nat, callback: int): SignalQueue {
    SignalQueue(locked, [word, 0, 0], Some(callback), if locked then 1 else 0)
  }

  function InitProc(state: PState, q: SignalQueue): Proc {
    Proc(1, state, PPERM_SUPER_ADMIN, CTX, [], false, q, None)
  }

  function ShellProc(state: PState, q: SignalQueue): Proc {
    Proc(2, state, {PPERM_CONSOLE}, CTX, [], false, q, None)
  }

  function InitHandler(pid: int, state: PState): Proc {
    Proc(pid, state, PPERM_SUPER_ADMIN, CTX, [], true, Queue(true, WORD, INIT_CALLBACK), Some(0))
  }

  function ShellHandler(pid: int, state: PState): Proc {
    Proc(pid, state, {PPERM_CONSOLE}, CTX, [], true, Queue(true, WORD, SHELL_CALLBACK), Some(1))
  }

  function Kernel(nodes: seq<Proc>, ring: seq<nat>, cur: nat, curNext: Option<nat>, nextPid: int): KState {
    KState(nodes, ring, cur, curNext, nextPid, [false], false)
  }

  const INIT_IDLE: SignalQueue := Queue(false, 0, INIT_CALLBACK)
  const SHELL_IDLE: SignalQueue := Queue(false, 0, SHELL_CALLBACK)
  const INIT_READ: SignalQueue := Queue(false, WORD, INIT_CALLBACK)
  const SHELL_READ: SignalQueue := Queue(false, WORD, SHELL_CALLBACK)
  const INIT_FULL: SignalQueue := Queue(true, WORD, INIT_CALLBACK)
  const SHELL_FULL: SignalQueue := Queue(true, WORD, SHELL_CALLBACK)

  /** init and shell after boot: init has hooked and spawned the shell, which has hooked. */
  function Booted(): Sys {
    Sys(Kernel([InitProc(Running, INIT_IDLE), ShellProc(Ready, SHELL_IDLE)], [0, 1], 0, None, 3),
        0, false, 2, 1, map[], [], [])
  }

  // ----- how the machine moves on concrete states ----------------------------------------

  lemma TickTo(k: KState, i: nat)
    requires Shape(k) && i < |k.ring|
    requires k.curNext == Some(k.ring[i]) || (k.curNext.None? && i > 0 && k.cur == k.ring[i - 1])
    ensures NextPos(k) == i
  {
    PosUnique(k.ring, i);
    if k.curNext.None? { PosUnique(k.ring, i - 1); }
  }

  lemma ClockTo(s: Sys, i: nat)
    requires Shape(s.k) && i < |s.k.ring|
    requires s.k.curNext == Some(s.k.ring[i]) || (s.k.curNext.None? && i > 0 && s.k.cur == s.k.ring[i - 1])
    requires s.k.ring[i] != s.k.cur
    ensures var k, next := s.k, s.k.ring[i];
      SysNext(s, CLOCK) == s.(k := k.(cur := next, curNext := None,
        nodes := k.nodes[k.cur := k.nodes[k.cur].(context := CTX, state := Ready)]
                        [next := k.nodes[next].(state := Running)]))
  {
    TickTo(s.k, i);
  }

  lemma FindAt(k: KState, i: nat)
    requires RingOk(k) && i < |k.ring| && forall j :: 0 <= j < i ==> PidAt(k, j) != PidAt(k, i)
    ensures Find(k, PidAt(k, i)) == i
  {
  }

  // ----- boot -----------------------------------------------------------------------------

  lemma {:induction false} RunSnoc(k: KState, steps: seq<Step>, s: Step)
    requires k.halted || Shape(k)
    ensures Run(k, steps + [s]) == Next(Run(k, steps), s)
    decreases |steps|
  {
    if steps == [] {
      assert (steps + [s])[1..] == [];
    } else {
      assert (steps + [s])[1..] == steps[1..] + [s];
      RoundRobin.NextShape(k, steps[0]);
      RunSnoc(Next(k, steps[0]), steps[1..], s);
    }
  }

  lemma BootSteps(k: KState)
    requires Shape(k) && k == Init(CTX)
    ensures var k1 := Next(k, Hook(Some(INIT_CALLBACK)));
      && k1 == Kernel([InitProc(Ready, INIT_IDLE)], [0], 0, None, 2) && Shape(k1)
      && var k2 := Next(k1, Spawn({PPERM_CONSOLE}, CTX));
      && k2 == Kernel([InitProc(Ready, INIT_IDLE), ShellProc(Ready, EMPTY_QUEUE)], [0, 1], 0, None, 3) && Shape(k2)
  {
    NextKeepsShape(k, Hook(Some(INIT_CALLBACK)));
    NextKeepsShape(Next(k, Hook(Some(INIT_CALLBACK))), Spawn({PPERM_CONSOLE}, CTX));
  }

  lemma ShellStarts(k2: KState)
    requires Shape(k2)
    requires k2 == Kernel([InitProc(Ready, INIT_IDLE), ShellProc(Ready, EMPTY_QUEUE)], [0, 1], 0, None, 3)
    ensures var k3 := Next(k2, Tick(CTX));
      && k3 == Kernel([InitProc(Ready, INIT_IDLE), ShellProc(Running, EMPTY_QUEUE)], [0, 1], 1, None, 3) && Shape(k3)
      && var k4 := Next(k3, Hook(Some(SHELL_CALLBACK)));
      && k4 == Kernel([InitProc(Ready, INIT_IDLE), ShellProc(Running, SHELL_IDLE)], [0, 1], 1, None, 3) && Shape(k4)
      && Next(k4, Tick(CTX)) == Booted().k && Shape(Booted().k)
  {
    TickTo(k2, 1);
    NextKeepsShape(k2, Tick(CTX));
    var k3 := Next(k2, Tick(CTX));
    NextKeepsShape(k3, Hook(Some(SHELL_CALLBACK)));
    var k4 := Next(k3, Hook(Some(SHELL_CALLBACK)));
    PosUnique(k4.ring, 1);
    NextKeepsShape(k4, Tick(CTX));
  }

  lemma BootedOk()
    requires Shape(Booted().k)
    ensures PipelineOk(Booted(), Idle)
  {
    assert PidAt(Booted().k, 0) == 1 && PidAt(Booted().k, 1) == 2;
  }

  /** Booted is reached from proc_init, and it is a ready state of the pipeline. */
  lemma BootIsReady() returns (steps: seq<Step>)
    ensures Shape(Init(CTX)) && Run(Init(CTX), steps) == Booted().k
    ensures PipelineOk(Booted(), Idle) && Booted().accepted == []
  {
    InitShape(CTX);
    var k := Init(CTX);
    BootSteps(k);
    ShellStarts(Next(Next(k, Hook(Some(INIT_CALLBACK))), Spawn({PPERM_CONSOLE}, CTX)));
    var a, b, c := Hook(Some(INIT_CALLBACK)), Spawn({PPERM_CONSOLE}, CTX), Tick(CTX);
    var d, e := Hook(Some(SHELL_CALLBACK)), Tick(CTX);
    RunSnoc(k, [], a);
    RunSnoc(k, [] + [a], b);
    RunSnoc(k, [] + [a] + [b], c);
    RunSnoc(k, [] + [a] + [b] + [c], d);
    RunSnoc(k, [] + [a] + [b] + [c] + [d], e);
    steps := [] + [a] + [b] + [c] + [d] + [e];
    BootedOk();
  }

  // ----- the unlucky run ------------------------------------------------------------------

  /** s is the state after the events. */
  ghost predicate After(events: seq<Event>, s: Sys) {
    Shape(Booted().k) && SysRun(Booted(), events) == s && (s.k.halted || Shape(s.k))
  }

  lemma {:induction false} SysRunSnoc(s: Sys, events: seq<Event>, e: Event)
    requires s.k.halted || Shape(s.k)
    ensures var r := SysRun(s, events);
      (r.k.halted || Shape(r.k)) && SysRun(s, events + [e]) == SysNext(r, e)
    decreases |events|
  {
    SysNextShape(s, e);
    if events == [] {
      assert (events + [e])[1..] == [];
    } else {
      assert (events + [e])[1..] == events[1..] + [e];
      SysNextShape(s, events[0]);
      SysRunSnoc(SysNext(s, events[0]), events[1..], e);
    }
  }

  lemma Advance(events: seq<Event>, s: Sys, e: Event)
    requires After(events, s)
    ensures After(events + [e], SysNext(s, e))
  {
    SysRunSnoc(Booted(), events, e);
    SysNextShape(s, e);
  }

  /** A send by a process attributed to init reaches the ring position i. */
  lemma SendTo(k: KState, i: nat)
    requires Shape(k) && i < |k.ring| && forall j :: 0 <= j < i ==> PidAt(k, j) != PidAt(k, i)
    requires Cur(k).handler ==> Cur(k).parent.Some? && Cur(k).parent.value < |k.nodes|
    requires SenderPid(k) == 1
    requires var q := k.nodes[k.ring[i]].sigq; !q.rwlock && q.nextIndex == 0 && |q.queue| == 3 && q.callback.Some?
    ensures var t := k.ring[i];
      var q := k.nodes[t].sigq;
      var k1 := SetNode(k, t, k.nodes[t].(sigq := SignalQueue(true, [WORD, q.queue[1], q.queue[2]], q.callback, 1)));
      SendStep(k, PidAt(k, i), PSIGNAL_KEYSTROKE, CTX) == (Append(k1, HandlerFor(k1, t, CTX)), EXIT_SUCCESS)
  {
    FindAt(k, i);
    var q := k.nodes[k.ring[i]].sigq;
    assert PackSignal(1, PSIGNAL_KEYSTROKE) == WORD;
    assert q.queue[0 := WORD] == [WORD, q.queue[1], q.queue[2]];
  }

  /** The word of the key 'a'. */
  const A_KEY: nat := 0x161_001E

  /** init has a signal pending and its handler exists. */
  function FirstKey(): Sys {
    var s := Booted();
    s.(k := s.k.(nodes := s.k.nodes[0 := InitProc(Running, INIT_FULL)] + [InitHandler(3, Ready)],
           ring := [0, 1, 2],
           nextPid := 4),
       slot := A_KEY, pcs := s.pcs[2 := InitLock], accepted := [A_KEY])
  }

  /** init's handler has the processor. */
  function InitHandlerRuns(): Sys {
    Sys(Kernel([InitProc(Ready, INIT_FULL), ShellProc(Ready, SHELL_IDLE), InitHandler(3, Running)],
               [0, 1, 2], 2, None, 4),
        A_KEY, false, 2, 1, map[2 := InitLock], [A_KEY], [])
  }

  /** It has taken the mutex and read the signal. */
  function SignalRead(): Sys {
    Sys(Kernel([InitProc(Ready, INIT_READ), ShellProc(Ready, SHELL_IDLE), InitHandler(3, Running)],
               [0, 1, 2], 2, None, 4),
        A_KEY, true, 2, 1, map[2 := InitForward(WORD)], [A_KEY], [])
  }

  /** It has told the shell, whose handler exists. */
  function Forwarded(): Sys {
    var s := SignalRead();
    s.(k := s.k.(nodes := s.k.nodes[1 := ShellProc(Ready, SHELL_FULL)] + [ShellHandler(4, Ready)],
           ring := [0, 1, 2, 3],
           nextPid := 5),
       pcs := s.pcs[2 := InitRelease][3 := ShellFetch])
  }

  /** The clock ticks before it can exit. */
  function Preempted(): Sys {
    Sys(Kernel([InitProc(Ready, INIT_READ), ShellProc(Ready, SHELL_FULL), InitHandler(3, Ready),
                ShellHandler(4, Running)],
               [0, 1, 2, 3], 3, None, 5),
        A_KEY, true, 2, 1, map[2 := InitRelease, 3 := ShellFetch], [A_KEY], [])
  }

  /** The shell's handler has fetched the keystroke. */
  function KeyTaken(): Sys {
    Sys(Kernel([InitProc(Ready, INIT_READ), ShellProc(Ready, SHELL_READ), InitHandler(3, Ready),
                ShellHandler(4, Running)],
               [0, 1, 2, 3], 3, None, 5),
        0, true, 2, 1, map[2 := InitRelease, 3 := ShellExit], [A_KEY], [A_KEY])
  }

  /** It has exited first: next_pid is the PID of init's handler. */
  function ShellHandlerGone(): Sys {
    var s := KeyTaken();
    s.(k := s.k.(ring := [0, 1, 2], curNext := Some(0), nextPid := 3))
  }

  /** init and shell spin for one tick each, */
  function InitSpins(): Sys {
    var s := ShellHandlerGone();
    s.(k := s.k.(nodes := s.k.nodes[0 := InitProc(Running, INIT_READ)][3 := ShellHandler(4, Ready)],
           cur := 0,
           curNext := None))
  }

  /** and then */
  function ShellSpins(): Sys {
    var s := InitSpins();
    s.(k := s.k.(nodes := s.k.nodes[0 := InitProc(Ready, INIT_READ)][1 := ShellProc(Running, SHELL_READ)], cur := 1))
  }

  /** init's handler runs again. */
  function BackToInitHandler(): Sys {
    Sys(Kernel([InitProc(Ready, INIT_READ), ShellProc(Ready, SHELL_READ), InitHandler(3, Running),
                ShellHandler(4, Ready)],
               [0, 1, 2], 2, None, 3),
        0, true, 2, 1, map[2 := InitRelease, 3 := ShellExit], [A_KEY], [A_KEY])
  }

  /** It has exited too: next_pid is the shell's PID. */
  function InitHandlerGone(): Sys {
    Sys(Kernel([InitProc(Ready, INIT_READ), ShellProc(Ready, SHELL_READ), InitHandler(3, Running),
                ShellHandler(4, Ready)],
               [0, 1], 2, Some(0), 2),
        0, false, 2, 1, map[2 := InitExit, 3 := ShellExit], [A_KEY], [A_KEY])
  }

  /** The next handler of init is born with it. */
  function SecondKey(): Sys {
    Sys(Kernel([InitProc(Ready, INIT_FULL), ShellProc(Ready, SHELL_READ), InitHandler(3, Running),
                ShellHandler(4, Ready), InitHandler(2, Ready)],
               [0, 1, 4], 2, Some(0), 3),
        A_KEY, false, 2, 1, map[2 := InitExit, 3 := ShellExit, 4 := InitLock], [A_KEY, A_KEY], [A_KEY])
  }

  /** After init */
  function InitSpinsAgain(): Sys {
    var s := SecondKey();
    s.(k := s.k.(nodes := s.k.nodes[0 := InitProc(Running, INIT_FULL)][2 := InitHandler(3, Ready)],
           cur := 0,
           curNext := None))
  }

  /** and shell */
  function ShellSpinsAgain(): Sys {
    var s := InitSpinsAgain();
    s.(k := s.k.(nodes := s.k.nodes[0 := InitProc(Ready, INIT_FULL)][1 := ShellProc(Running, SHELL_READ)], cur := 1))
  }

  /** it gets the processor, */
  function TwinRuns(): Sys {
    var s := ShellSpinsAgain();
    s.(k := s.k.(nodes := s.k.nodes[1 := ShellProc(Ready, SHELL_READ)][4 := InitHandler(2, Running)], cur := 4))
  }

  /** takes the mutex, */
  function TwinLocks(): Sys {
    Sys(Kernel([InitProc(Ready, INIT_FULL), ShellProc(Ready, SHELL_READ), InitHandler(3, Ready),
                ShellHandler(4, Ready), InitHandler(2, Running)],
               [0, 1, 4], 4, None, 3),
        A_KEY, true, 2, 1, map[2 := InitExit, 3 := ShellExit, 4 := InitFetch], [A_KEY, A_KEY], [A_KEY])
  }

  /** reads its signal, */
  function TwinRead(): Sys {
    Sys(Kernel([InitProc(Ready, INIT_READ), ShellProc(Ready, SHELL_READ), InitHandler(3, Ready),
                ShellHandler(4, Ready), InitHandler(2, Running)],
               [0, 1, 4], 4, None, 3),
        A_KEY, true, 2, 1, map[2 := InitExit, 3 := ShellExit, 4 := InitForward(WORD)], [A_KEY, A_KEY], [A_KEY])
  }

  /** forwards it, releases the mutex and is about to exit. */
  function TwinDone(): Sys {
    Sys(Kernel([InitProc(Ready, INIT_READ), ShellProc(Ready, SHELL_FULL), InitHandler(3, Ready),
                ShellHandler(4, Ready), InitHandler(2, Running), ShellHandler(3, Ready)],
               [0, 1, 4, 5], 4, None, 4),
        A_KEY, false, 2, 1, map[2 := InitExit, 3 := ShellExit, 4 := InitExit, 5 := ShellFetch], [A_KEY, A_KEY], [A_KEY])
  }

  lemma IntoFirstKey()
    requires Shape(Booted().k)
    ensures SysNext(Booted(), KEY) == FirstKey()
  {
    var s := Booted();
    SendTo(s.k, 0);
    SysNextShape(s, KEY);
    s := SysNext(s, KEY);
    assert s.k.nodes == FirstKey().k.nodes;
  }

  lemma IntoInitHandlerRuns()
    requires Shape(FirstKey().k)
    ensures var s1 := SysNext(FirstKey(), CLOCK);
      && (s1.k.halted || Shape(s1.k))
      && SysNext(s1, CLOCK) == InitHandlerRuns()
  {
    var s := FirstKey();
    ClockTo(s, 1);
    SysNextShape(s, CLOCK);
    s := SysNext(s, CLOCK);
    assert s.k.nodes == [InitProc(Ready, INIT_FULL), ShellProc(Running, SHELL_IDLE), InitHandler(3, Ready)];
    ClockTo(s, 2);
    SysNextShape(s, CLOCK);
    s := SysNext(s, CLOCK);
  }

  lemma IntoSignalRead()
    requires Shape(InitHandlerRuns().k)
    ensures var s1 := SysNext(InitHandlerRuns(), RUN);
      && (s1.k.halted || Shape(s1.k))
      && SysNext(s1, RUN) == SignalRead()
  {
    var s := InitHandlerRuns();
    SysNextShape(s, RUN);
    s := SysNext(s, RUN);
    SysNextShape(s, RUN);
    s := SysNext(s, RUN);
  }

  lemma IntoForwarded()
    requires Shape(SignalRead().k)
    ensures SysNext(SignalRead(), RUN) == Forwarded()
  {
    var s := SignalRead();
    SendTo(s.k, 1);
    SysNextShape(s, RUN);
    s := SysNext(s, RUN);
    assert s.k.nodes == Forwarded().k.nodes;
  }

  lemma IntoPreempted()
    requires Shape(Forwarded().k)
    ensures SysNext(Forwarded(), CLOCK) == Preempted()
  {
    var s := Forwarded();
    ClockTo(s, 3);
    SysNextShape(s, CLOCK);
    s := SysNext(s, CLOCK);
  }

  lemma IntoKeyTaken()
    requires Shape(Preempted().k)
    ensures var s1 := SysNext(Preempted(), RUN);
      && (s1.k.halted || Shape(s1.k))
      && SysNext(s1, RUN) == KeyTaken()
  {
    var s := Preempted();
    SysNextShape(s, RUN);
    s := SysNext(s, RUN);
    assert s.k.nodes == KeyTaken().k.nodes;
    assert s.pcs == map[2 := InitRelease, 3 := ShellKey];
    SysNextShape(s, RUN);
    s := SysNext(s, RUN);
  }

  lemma IntoShellHandlerGone()
    requires Shape(KeyTaken().k)
    ensures SysNext(KeyTaken(), RUN) == ShellHandlerGone()
  {
    var s := KeyTaken();
    FindAt(s.k, 3);
    SysNextShape(s, RUN);
    s := SysNext(s, RUN);
    assert s.k.ring == [0, 1, 2];
  }

  lemma IntoInitSpins()
    requires Shape(ShellHandlerGone().k)
    ensures SysNext(ShellHandlerGone(), CLOCK) == InitSpins()
  {
    var s := ShellHandlerGone();
    ClockTo(s, 0);
    SysNextShape(s, CLOCK);
    s := SysNext(s, CLOCK);
  }

  lemma IntoShellSpins()
    requires Shape(InitSpins().k)
    ensures SysNext(InitSpins(), CLOCK) == ShellSpins()
  {
    var s := InitSpins();
    ClockTo(s, 1);
    SysNextShape(s, CLOCK);
    s := SysNext(s, CLOCK);
  }

  lemma IntoBackToInitHandler()
    requires Shape(ShellSpins().k)
    ensures SysNext(ShellSpins(), CLOCK) == BackToInitHandler()
  {
    var s := ShellSpins();
    ClockTo(s, 2);
    SysNextShape(s, CLOCK);
    s := SysNext(s, CLOCK);
  }

  /** init's handler has released the mutex. */
  function InitReleased(): Sys {
    BackToInitHandler().(pcs := map[2 := InitExit, 3 := ShellExit], lock := false)
  }

  lemma IntoInitReleased()
    requires Shape(BackToInitHandler().k)
    ensures SysNext(BackToInitHandler(), RUN) == InitReleased()
  {
    assert SysNext(BackToInitHandler(), RUN).pcs == InitReleased().pcs;
  }

  lemma IntoInitHandlerGone()
    requires Shape(InitReleased().k)
    ensures SysNext(InitReleased(), RUN) == InitHandlerGone()
  {
    var s := InitReleased();
    FindAt(s.k, 2);
    SysNextShape(s, RUN);
    s := SysNext(s, RUN);
    assert s.k.ring == [0, 1];
  }

  lemma IntoSecondKey()
    requires Shape(InitHandlerGone().k)
    ensures SysNext(InitHandlerGone(), KEY) == SecondKey()
  {
    var s := InitHandlerGone();
    SendTo(s.k, 0);
    SysNextShape(s, KEY);
    s := SysNext(s, KEY);
    assert s.k.nodes == SecondKey().k.nodes;
  }

  lemma IntoInitSpinsAgain()
    requires Shape(SecondKey().k)
    ensures SysNext(SecondKey(), CLOCK) == InitSpinsAgain()
  {
    var s := SecondKey();
    ClockTo(s, 0);
    SysNextShape(s, CLOCK);
    s := SysNext(s, CLOCK);
  }

  lemma IntoShellSpinsAgain()
    requires Shape(InitSpinsAgain().k)
    ensures SysNext(InitSpinsAgain(), CLOCK) == ShellSpinsAgain()
  {
    var s := InitSpinsAgain();
    ClockTo(s, 1);
    SysNextShape(s, CLOCK);
    s := SysNext(s, CLOCK);
  }

  lemma IntoTwinRuns()
    requires Shape(ShellSpinsAgain().k)
    ensures SysNext(ShellSpinsAgain(), CLOCK) == TwinRuns()
  {
    var s := ShellSpinsAgain();
    ClockTo(s, 2);
    SysNextShape(s, CLOCK);
    s := SysNext(s, CLOCK);
  }

  lemma IntoTwinLocks()
    requires Shape(TwinRuns().k)
    ensures SysNext(TwinRuns(), RUN) == TwinLocks()
  {
    var s := TwinRuns();
    SysNextShape(s, RUN);
    s := SysNext(s, RUN);
    assert s.pcs == TwinLocks().pcs;
  }

  lemma IntoTwinRead()
    requires Shape(TwinLocks().k)
    ensures SysNext(TwinLocks(), RUN) == TwinRead()
  {
    var s := TwinLocks();
    SysNextShape(s, RUN);
    s := SysNext(s, RUN);
    assert s.k.nodes == TwinRead().k.nodes;
  }

  lemma IntoTwinDone()
    requires Shape(TwinRead().k)
    ensures var s1 := SysNext(TwinRead(), RUN);
      && (s1.k.halted || Shape(s1.k))
      && SysNext(s1, RUN) == TwinDone()
  {
    var s := TwinRead();
    SendTo(s.k, 1);
    SysNextShape(s, RUN);
    s := SysNext(s, RUN);
    assert s.k.nodes == TwinDone().k.nodes;
    assert s.pcs == map[2 := InitExit, 3 := ShellExit, 4 := InitRelease, 5 := ShellFetch];
    SysNextShape(s, RUN);
    s := SysNext(s, RUN);
    assert s.pcs == TwinDone().pcs;
  }

  /** The first keystroke is fetched. */
  lemma FirstKeystroke(events: seq<Event>) returns (next: seq<Event>)
    requires After(events, Booted())
    ensures After(next, KeyTaken())
  {
    next := events;
    IntoFirstKey();
    Advance(next, Booted(), KEY);
    next := next + [KEY];
    IntoInitHandlerRuns();
    Advance(next, FirstKey(), CLOCK);
    Advance(next + [CLOCK], SysNext(FirstKey(), CLOCK), CLOCK);
    next := next + [CLOCK] + [CLOCK];
    IntoSignalRead();
    Advance(next, InitHandlerRuns(), RUN);
    Advance(next + [RUN], SysNext(InitHandlerRuns(), RUN), RUN);
    next := next + [RUN] + [RUN];
    IntoForwarded();
    Advance(next, SignalRead(), RUN);
    next := next + [RUN];
    IntoPreempted();
    Advance(next, Forwarded(), CLOCK);
    next := next + [CLOCK];
    IntoKeyTaken();
    Advance(next, Preempted(), RUN);
    Advance(next + [RUN], SysNext(Preempted(), RUN), RUN);
    next := next + [RUN] + [RUN];
  }

  /** The two handlers exit in the wrong order. */
  lemma HandlersExit(events: seq<Event>) returns (next: seq<Event>)
    requires After(events, KeyTaken())
    ensures After(next, InitHandlerGone())
  {
    next := events;
    IntoShellHandlerGone();
    Advance(next, KeyTaken(), RUN);
    next := next + [RUN];
    IntoInitSpins();
    Advance(next, ShellHandlerGone(), CLOCK);
    next := next + [CLOCK];
    IntoShellSpins();
    Advance(next, InitSpins(), CLOCK);
    next := next + [CLOCK];
    IntoBackToInitHandler();
    Advance(next, ShellSpins(), CLOCK);
    next := next + [CLOCK];
    IntoInitReleased();
    Advance(next, BackToInitHandler(), RUN);
    next := next + [RUN];
    IntoInitHandlerGone();
    Advance(next, InitReleased(), RUN);
    next := next + [RUN];
  }

  /** The second keystroke. */
  lemma SecondKeystroke(events: seq<Event>) returns (next: seq<Event>)
    requires After(events, InitHandlerGone())
    ensures After(next, TwinDone())
  {
    next := events;
    IntoSecondKey();
    Advance(next, InitHandlerGone(), KEY);
    next := next + [KEY];
    IntoInitSpinsAgain();
    Advance(next, SecondKey(), CLOCK);
    next := next + [CLOCK];
    IntoShellSpinsAgain();
    Advance(next, InitSpinsAgain(), CLOCK);
    next := next + [CLOCK];
    IntoTwinRuns();
    Advance(next, ShellSpinsAgain(), CLOCK);
    next := next + [CLOCK];
    IntoTwinLocks();
    Advance(next, TwinRuns(), RUN);
    next := next + [RUN];
    IntoTwinRead();
    Advance(next, TwinLocks(), RUN);
    next := next + [RUN];
    IntoTwinDone();
    Advance(next, TwinRead(), RUN);
    Advance(next + [RUN], SysNext(TwinRead(), RUN), RUN);
    next := next + [RUN] + [RUN];
  }

  /** The exit of the new handler finds the shell under its own PID. */
  lemma ItsExitHalts(events: seq<Event>)
    requires After(events, TwinDone())
    ensures var last := SysNext(TwinDone(), RUN);
      After(events + [RUN], last) && last.k.halted && last.accepted == [A_KEY, A_KEY] && last.fetched == [A_KEY]
  {
    var k := TwinDone().k;
    FindAt(k, 1);
    assert PidAt(k, 2) == 2;
    Advance(events, TwinDone(), RUN);
  }

  /** The run before that exit is guarded, and the exit is not. */
  lemma OnlyLastUnguarded(events: seq<Event>)
    requires PipelineOk(Booted(), Idle) && After(events, TwinDone())
    requires SysRun(Booted(), events + [RUN]).k.halted
    ensures AllGuarded(Booted(), events) && !AllGuarded(Booted(), events + [RUN])
  {
    assert !Dead(TwinDone()) by { assert 5 in TwinDone().pcs && TwinDone().pcs[5] == ShellFetch; }
    GuardedIffAlive(Booted(), Idle, events);
    GuardedIffAlive(Booted(), Idle, events + [RUN]);
  }

  /** Some run from boot, in which only the keyboard, the clock and the handlers act, halts the
    kernel with the second keystroke accepted and never fetched.  Only its last event is not
    guarded. */
  lemma UnguardedRunHalts() returns (events: seq<Event>)
    ensures Shape(Booted().k) && PipelineOk(Booted(), Idle)
    ensures var r := SysRun(Booted(), events);
      r.k.halted && r.accepted == [A_KEY, A_KEY] && r.fetched == [A_KEY]
    ensures |events| > 0 && AllGuarded(Booted(), events[..|events| - 1]) && !AllGuarded(Booted(), events)
  {
    var steps := BootIsReady();
    events := FirstKeystroke([]);
    events := HandlersExit(events);
    events := SecondKeystroke(events);
    ItsExitHalts(events);
    OnlyLastUnguarded(events);
    assert (events + [RUN])[..|events|] == events;
    events := events + [RUN];
  }
}
