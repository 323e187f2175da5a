/** The keystroke pipeline: keyboard interrupt -> init's signal handler -> shell's signal
  handler, through the one-slot buffer of ps2keyboard.c and the process machine of ProcSpec.

  Init and shell spin in their main loops; the programs that run are their signal handlers,
  one instruction that the kernel can see at a time.  Other processes may do anything but send
  and read signals.  Every interleaving is covered: any event may come at any time, and who
  executes is decided by the clock ticks of the process machine. */
module Pipeline {
  import opened Common
  import opened ProcSpec
  import opened Ring
  import opened Signals

  const PSIGNAL_KEYSTROKE: nat := 0x9961A7A
  const INIT_CALLBACK: int := 0x1000
  const SHELL_CALLBACK: int := 0x2000

  // ----- the keyboard ---------------------------------------------------------------------

  type SignedChar = x: int | -0x80 <= x < 0x80

  /** The scancode table with its final NUL; what lies behind it is unknown memory. */
  const SC_ASCII: seq<SignedChar> :=
    [0, 27] + Codes("1234567890-=") + [8, 0] + Codes("qwertyuiop[]") + [13, 29] + Codes("asdfghjkl;'`") +
    [0, 92] + Codes("zxcvbnm,./") + [0, 0, 0, 32, 0]

  function Codes(text: string): (r: seq<SignedChar>)
    ensures |r| == |text|
  {
    seq(|text|, i requires 0 <= i < |text| => if text[i] as int < 0x80 then text[i] as int else 0)
  }

  /** The character read for a scancode, a signed char; `stray` is the byte found behind the table. */
  function Character(scancode: nat, stray: SignedChar): SignedChar {
    if scancode < |SC_ASCII| then SC_ASCII[scancode] else stray
  }

  /** pressed << 24 | character << 16 | scancode, as a uint32_t. */
  function KeyWord(scancode: nat, character: SignedChar): nat
    requires scancode < 0x80
  {
    if character >= 0 then 0x100_0000 + character * 0x1_0000 + scancode
    else TWO_TO_THE_32 + character * 0x1_0000 + scancode
  }

  function ExtractScancode(word: nat): nat { word % 0x1_0000 }

  function ExtractCharacter(word: nat): nat { word / 0x1_0000 % 0x100 }

  /** KEYSTROKE_EXTRACT_PRESSED.  The shift binds tighter than the mask, so that what is tested is
    bit 0. */
  function ExtractPressed(word: nat): nat { word % 2 }

  /** A keystroke word is never 0, which would mean an empty slot, and the macros of key.h get
    scancode and character back.  Bit 24, which says that the key is pressed, is always set; the
    macro for it yields 1 exactly for odd scancodes. */
  lemma KeyWordRoundTrip(scancode: nat, character: SignedChar)
    requires scancode < 0x80
    ensures 0 < KeyWord(scancode, character) < TWO_TO_THE_32
    ensures ExtractScancode(KeyWord(scancode, character)) == scancode
    ensures ExtractCharacter(KeyWord(scancode, character)) == character % 0x100
    ensures KeyWord(scancode, character) / 0x100_0000 % 2 == 1
    ensures ExtractPressed(KeyWord(scancode, character)) == 1 <==> scancode % 2 == 1
  {
    var word := KeyWord(scancode, character);
    var high := if character >= 0 then 0x100 + character else 0x1_0000 + character;
    assert word == high * 0x1_0000 + scancode;
    assert word / 0x1_0000 == high;
    assert high / 0x100 % 2 == 1;
  }

  /** What the upper rows of the keyboard spell. */
  lemma UpperRows(stray: SignedChar, i: nat)
    requires i < 12
    ensures Character(2 + i, stray) == "1234567890-="[i] as int
    ensures Character(16 + i, stray) == "qwertyuiop[]"[i] as int
  {
  }

  /** ... and the lower ones. */
  lemma LowerRows(stray: SignedChar, i: nat)
    requires i < 12
    ensures Character(30 + i, stray) == "asdfghjkl;'`"[i] as int
    ensures i < 10 ==> Character(44 + i, stray) == "zxcvbnm,./"[i] as int
    ensures Character(57, stray) == ' ' as int && Character(28, stray) == '\r' as int
  {
  }

  // ----- the system -----------------------------------------------------------------------

  /** The next instruction of a handler: init's five (main.c:13-25), then shell's three. */
  datatype Pc =
    | InitLock | InitFetch | InitForward(word: nat) | InitRelease | InitExit
    | ShellFetch | ShellKey | ShellExit

  /** `slot` is last_keystroke and `lock` init's psignal_lock.  `shell` is the shell's process
    structure.  `accepted` and `fetched` are the keystrokes that the interrupt handler left in
    the slot and that the shell took out. */
  datatype Sys = Sys(
    k: KState, slot: nat, lock: bool, shellPid: int, shell: nat, pcs: map<nat, Pc>,
    accepted: seq<nat>, fetched: seq<nat>)

  datatype Event =
    | Key(scancode: nat, stray: SignedChar, space: Context)
    | Clock(saved: Context)
    | User(space: Context)
    | Other(step: Step)

  function Entry(callback: int): Pc {
    if callback == INIT_CALLBACK then InitLock else ShellFetch
  }

  /** Applies an accepted or refused send and starts the handler that it creates, if any. */
  function Deliver(s: Sys, to: int, dword: nat, space: Context): Sys
    requires Shape(s.k)
  {
    var k' := SendStep(s.k, to, dword, space).0;
    var n := |s.k.nodes|;
    if |k'.nodes| == n then s.(k := k')
    else
      assert ProcOk(s.k, s.k.cur);
      var callback := k'.nodes[n].sigq.callback;
      s.(k := k', pcs := s.pcs[n := Entry(if callback.Some? then callback.value else 0)])
  }

  predicate KeyFires(s: Sys, scancode: nat) {
    scancode < 0x80 && s.slot == 0
  }

  /** irq1_isr. */
  function KeyStep(s: Sys, scancode: nat, stray: SignedChar, space: Context): Sys
    requires Shape(s.k)
  {
    if !KeyFires(s, scancode) then s
    else
      var word := KeyWord(scancode, Character(scancode, stray));
      if SendStep(s.k, 1, PSIGNAL_KEYSTROKE, space).1 == -EBUSY then Deliver(s, 1, PSIGNAL_KEYSTROKE, space)
      else Deliver(s, 1, PSIGNAL_KEYSTROKE, space).(slot := word, accepted := s.accepted + [word])
  }

  function Goto(s: Sys, pc: Pc): Sys {
    s.(pcs := s.pcs[s.k.cur := pc])
  }

  /** The word that psignal_fetch returns; a read outside the queue, which never happens here,
    counts as 0. */
  function Fetched(k: KState): nat
    requires Shape(k)
  {
    match ReadStep(k).1 case Word(word) => word case OutOfBounds => 0
  }

  function AfterFetch(word: nat): Pc {
    if ExtractPayload(word) == PSIGNAL_KEYSTROKE then InitForward(word) else InitRelease
  }

  /** init's handler forwards what it has read exactly when the low 32 bits are the keystroke code. */
  lemma ForwardsKeystrokesOnly(word: nat)
    ensures AfterFetch(word) == if word % 0x1_0000_0000 == 0x996_1A7A then InitForward(word) else InitRelease
  {
  }

  /** One instruction of the handler that executes. */
  function UserStep(s: Sys, space: Context): Sys
    requires Shape(s.k) && s.k.curNext.None? && s.k.cur in s.pcs
  {
    match s.pcs[s.k.cur]
    case InitLock => if s.lock then s else Goto(s, InitFetch).(lock := true)
    case InitFetch => Goto(s, AfterFetch(Fetched(s.k))).(k := ReadStep(s.k).0)
    case InitForward(word) => Deliver(Goto(s, InitRelease), s.shellPid, ExtractPayload(word), space)
    case InitRelease => Goto(s, InitExit).(lock := false)
    case InitExit => s.(k := ExitStep(s.k))
    case ShellFetch => Goto(s, ShellKey).(k := ReadStep(s.k).0)
    case ShellKey => Goto(s, ShellExit).(fetched := s.fetched + [s.slot], slot := 0)
    case ShellExit => s.(k := ExitStep(s.k))
  }

  /** A step by a process that is neither init, shell nor a handler, other than send and read. */
  predicate ByOthers(s: Sys, step: Step) {
    && s.k.cur != 0 && s.k.cur != s.shell && s.k.cur !in s.pcs
    && !step.Send? && !step.Read? && !step.Tick?
  }

  function SysNext(s: Sys, e: Event): Sys
    requires s.k.halted || Shape(s.k)
  {
    if s.k.halted then s
    else match e
      case Key(scancode, stray, space) => KeyStep(s, scancode, stray, space)
      case Clock(saved) => s.(k := TickStep(s.k, saved))
      case User(space) => if s.k.curNext.None? && s.k.cur in s.pcs then UserStep(s, space) else s
      case Other(step) => if ByOthers(s, step) then s.(k := Next(s.k, step)) else s
  }

  /** The step of the process machine that an event makes. */
  function KernelStep(s: Sys, e: Event): Option<Step>
    requires Shape(s.k)
  {
    match e
    case Key(scancode, stray, space) =>
      if KeyFires(s, scancode) then Some(Send(1, PSIGNAL_KEYSTROKE, space)) else None
    case Clock(saved) => Some(Tick(saved))
    case User(space) =>
      if s.k.curNext.None? && s.k.cur in s.pcs then
        match s.pcs[s.k.cur]
        case InitFetch => Some(Read)
        case InitForward(word) => Some(Send(s.shellPid, ExtractPayload(word), space))
        case InitExit => Some(Exit)
        case ShellFetch => Some(Read)
        case ShellExit => Some(Exit)
        case _ => None
      else None
    case Other(step) => if ByOthers(s, step) then Some(step) else None
  }

  /** Nothing but sending and reading is kept from processes other than init, shell and handlers. */
  lemma OthersMayDoAnything(s: Sys, step: Step)
    requires Shape(s.k) && s.k.cur != 0 && s.k.cur != s.shell && s.k.cur !in s.pcs
    requires step.Spawn? || step.Exit? || step.Hook? || step.Grant? || step.Revoke? || step.Claim?
    ensures SysNext(s, Other(step)) == s.(k := Next(s.k, step))
  {
  }

  lemma KernelStepTracks(s: Sys, e: Event)
    requires Shape(s.k)
    ensures SysNext(s, e).k == if KernelStep(s, e).Some? then Next(s.k, KernelStep(s, e).value) else s.k
  {
    match e
    case User(space) => if s.k.curNext.None? && s.k.cur in s.pcs { UserStepTracks(s, space); }
    case _ =>
  }

  lemma UserStepTracks(s: Sys, space: Context)
    requires Shape(s.k) && s.k.curNext.None? && s.k.cur in s.pcs
    ensures var step := KernelStep(s, User(space));
      UserStep(s, space).k == if step.Some? then Next(s.k, step.value) else s.k
  {
  }

  /** Can be decided before the event: no process exits whose PID another live process has, and no
    key is pressed while the process that executes has a negative PID. */
  predicate EventGuard(s: Sys, e: Event)
    requires Shape(s.k)
  {
    && (KernelStep(s, e).Some? ==> MayStep(s.k, KernelStep(s, e).value))
    && (e.Key? && KeyFires(s, e.scancode) ==> (assert ProcOk(s.k, s.k.cur); 0 <= SenderPid(s.k)))
  }

  /** The step does not halt the kernel. */
  predicate MayStep(k: KState, step: Step)
    requires Shape(k)
  {
    step.Exit? && Enabled(k, step) ==> ExitRefused(k) || !ExitHalts(k)
  }

  lemma MayStepRuns(k: KState, step: Step)
    requires Shape(k)
    ensures MayStep(k, step) <==> Shape(Next(k, step))
    ensures MayStep(k, step) <==> !Next(k, step).halted
  {
    NextKeepsShape(k, step);
    assert ProcOk(k, k.cur);
  }

  // ----- the invariant --------------------------------------------------------------------

  /** Where the keystroke in flight is, and which handler has it. */
  datatype Phase =
    | Idle | InitUnread(h: nat) | InitRead(h: nat) | ShellUnread(h: nat) | ShellRead(h: nat)

  /** The handler has nothing to do with the keystroke in flight any more. */
  predicate Late(pc: Pc) { pc.InitRelease? || pc.InitExit? || pc.ShellExit? }

  predicate Holds(pc: Pc) { pc.InitFetch? || pc.InitForward? || pc.InitRelease? }

  predicate ShellCode(pc: Pc) { pc.ShellFetch? || pc.ShellKey? || pc.ShellExit? }

  predicate Empty(q: SignalQueue) { !q.rwlock && q.nextIndex == 0 && |q.queue| == PSIGNAL_QUEUE_SIZE }

  /** One signal with the keystroke payload waits to be read. */
  predicate Full(q: SignalQueue) {
    && q.rwlock && q.nextIndex == 1 && |q.queue| == PSIGNAL_QUEUE_SIZE
    && TopBitsUntouched(q.queue[0]) && ExtractPayload(q.queue[0]) == PSIGNAL_KEYSTROKE
  }

  ghost predicate OthersLate(s: Sys, h: nat) {
    forall x :: x in s.pcs && x != h ==> Late(s.pcs[x])
  }

  predicate Live(s: Sys, h: nat) { h in s.pcs && h in s.k.ring }

  ghost predicate InPhase(s: Sys, phase: Phase)
    requires 0 < |s.k.nodes| && s.shell < |s.k.nodes|
  {
    var init, shell := s.k.nodes[0].sigq, s.k.nodes[s.shell].sigq;
    match phase
    case Idle => s.slot == 0 && Empty(init) && Empty(shell) && forall x :: x in s.pcs ==> Late(s.pcs[x])
    case InitUnread(h) =>
      (s.slot != 0 && Full(init) && Empty(shell) && OthersLate(s, h) && Live(s, h)
       && (s.pcs[h].InitLock? || s.pcs[h].InitFetch?))
    case InitRead(h) =>
      (s.slot != 0 && Empty(init) && Empty(shell) && OthersLate(s, h) && Live(s, h)
       && s.pcs[h].InitForward? && ExtractPayload(s.pcs[h].word) == PSIGNAL_KEYSTROKE)
    case ShellUnread(h) =>
      (s.slot != 0 && Empty(init) && Full(shell) && OthersLate(s, h) && Live(s, h) && s.pcs[h].ShellFetch?)
    case ShellRead(h) =>
      (s.slot != 0 && Empty(init) && Empty(shell) && OthersLate(s, h) && Live(s, h) && s.pcs[h].ShellKey?)
  }

  ghost predicate HandlersOk(s: Sys)
    requires s.shell < |s.k.nodes|
  {
    forall h :: h in s.pcs ==>
      && h < |s.k.nodes| && s.k.nodes[h].handler && s.k.nodes[h].sigq.nextIndex == 1
      && s.k.nodes[h].parent == Some(if ShellCode(s.pcs[h]) then s.shell else 0)
  }

  /** init's mutex: at most one holder, alive, and the lock is set exactly while there is one. */
  ghost predicate MutexOk(s: Sys) {
    && (forall x, y :: x in s.pcs && y in s.pcs && Holds(s.pcs[x]) && Holds(s.pcs[y]) ==> x == y)
    && (forall x :: x in s.pcs && Holds(s.pcs[x]) ==> s.lock && x in s.k.ring)
    && (s.lock ==> exists x :: x in s.pcs && Holds(s.pcs[x]))
  }

  ghost predicate ShellOk(s: Sys) {
    && 0 < s.shell < |s.k.nodes| && s.shell in s.k.ring && !s.k.nodes[s.shell].handler
    && s.k.nodes[s.shell].pid == s.shellPid
    && s.k.nodes[0].sigq.callback == Some(INIT_CALLBACK)
    && s.k.nodes[s.shell].sigq.callback == Some(SHELL_CALLBACK)
    && 0 !in s.pcs && s.shell !in s.pcs
  }

  ghost predicate Core(s: Sys, phase: Phase) {
    && 0 < |s.k.nodes|
    && ShellOk(s) && HandlersOk(s) && MutexOk(s) && InPhase(s, phase)
    && s.accepted == s.fetched + (if s.slot == 0 then [] else [s.slot])
  }

  /** Process x is the first in the ring with its PID. */
  ghost predicate First(k: KState, x: nat)
    requires RingOk(k)
  {
    exists i :: 0 <= i < |k.ring| && k.ring[i] == x && forall j :: 0 <= j < i ==> PidAt(k, j) != PidAt(k, i)
  }

  /** Nothing is asked of PIDs but that a search for the shell's finds the shell. */
  ghost predicate PipelineOk(s: Sys, phase: Phase) {
    Shape(s.k) && PidsFit(s.k) && s.shell < |s.k.nodes| && First(s.k, s.shell) && Core(s, phase)
  }

  /** The pipeline is in order, with the keystroke in some phase. */
  ghost predicate InOrder(s: Sys) {
    exists phase :: PipelineOk(s, phase)
  }

  /** A state has at most one phase. */
  lemma OnePhase(s: Sys, a: Phase, b: Phase)
    requires PipelineOk(s, a) && PipelineOk(s, b)
    ensures a == b
  {
  }

  // ----- one event ------------------------------------------------------------------------

  /** The process machine did something that does not concern init, the shell or a handler. */
  ghost predicate Apart(k: KState, k': KState, s: Sys) {
    && |k.nodes| <= |k'.nodes|
    && (forall i :: 0 <= i < |k.nodes| ==>
          k'.nodes[i].pid == k.nodes[i].pid && k'.nodes[i].handler == k.nodes[i].handler
          && k'.nodes[i].parent == k.nodes[i].parent)
    && (forall i :: 0 <= i < |k.nodes| && (i == 0 || i == s.shell || i in s.pcs) ==>
          k'.nodes[i].sigq == k.nodes[i].sigq)
  }

  lemma ApartKeeps(s: Sys, phase: Phase, k': KState)
    requires Core(s, phase) && Apart(s.k, k', s)
    requires s.shell in k'.ring
    requires forall h :: h in s.pcs && h in s.k.ring && (!Late(s.pcs[h]) || Holds(s.pcs[h])) ==> h in k'.ring
    ensures Core(s.(k := k'), phase)
  {
  }

  lemma FirstFound(k: KState, x: nat)
    requires Shape(k) && x < |k.nodes| && First(k, x)
    ensures var i := Find(k, k.nodes[x].pid);
      i < |k.ring| && k.ring[i] == x && forall j :: 0 <= j < i ==> PidAt(k, j) != PidAt(k, i)
  {
  }

  lemma ExtendsFirst(k: KState, k': KState, x: nat)
    requires Shape(k) && Shape(k') && First(k, x) && Extends(k, k')
    ensures First(k', x)
  {
    var i :| 0 <= i < |k.ring| && k.ring[i] == x && forall j :: 0 <= j < i ==> PidAt(k, j) != PidAt(k, i);
    forall j | 0 <= j <= i ensures PidAt(k', j) == PidAt(k, j) && k'.ring[j] == k.ring[j] { }
  }

  lemma ExitFirst(k: KState, x: nat)
    requires Shape(k) && k.curNext.None? && MayStep(k, Exit) && First(k, x) && x != k.cur
    ensures RingOk(ExitStep(k)) && First(ExitStep(k), x)
  {
    if !ExitRefused(k) {
      var k', pos := ExitStep(k), Find(k, Cur(k).pid);
      ExitRemovesCurrent(k);
      RemoveAtEntries(k.ring, pos);
      var i :| 0 <= i < |k.ring| && k.ring[i] == x && forall j :: 0 <= j < i ==> PidAt(k, j) != PidAt(k, i);
      var i' := if i < pos then i else i - 1;
      forall j | 0 <= j < |k'.ring| ensures PidAt(k', j) == PidAt(k, if j < pos then j else j + 1) { }
      assert k'.ring[i'] == x;
    }
  }

  /** The process machine goes on, whatever the event, and the shell stays the first with its PID. */
  lemma KernelOk(s: Sys, e: Event)
    requires Shape(s.k) && PidsFit(s.k) && First(s.k, s.shell) && EventGuard(s, e) && s.shell !in s.pcs
    ensures Shape(SysNext(s, e).k) && PidsFit(SysNext(s, e).k) && First(SysNext(s, e).k, s.shell)
  {
    KernelStepTracks(s, e);
    if KernelStep(s, e).Some? {
      var step := KernelStep(s, e).value;
      MayStepRuns(s.k, step);
      NextPidsFit(s.k, step);
      if step.Exit? {
        if Enabled(s.k, step) { ExitFirst(s.k, s.shell); }
      } else {
        NextExtends(s.k, step);
        ExtendsFirst(s.k, Next(s.k, step), s.shell);
      }
    }
  }

  lemma ClockApart(s: Sys, saved: Context)
    requires Shape(s.k)
    ensures Shape(TickStep(s.k, saved)) && Apart(s.k, TickStep(s.k, saved), s)
    ensures TickStep(s.k, saved).ring == s.k.ring
  {
    TickKeepsShape(s.k, saved);
    TickFramed(s.k, saved);
    var k' := TickStep(s.k, saved);
    forall i | 0 <= i < |s.k.nodes| ensures Kin(Tick(saved), s.k.nodes[i], k'.nodes[i]) { }
  }

  lemma ClockOk(s: Sys, phase: Phase, saved: Context)
    requires PipelineOk(s, phase)
    ensures Core(SysNext(s, Clock(saved)), phase)
  {
    ClockApart(s, saved);
    ApartKeeps(s, phase, TickStep(s.k, saved));
  }

  /** An exit keeps everybody else in the ring. */
  lemma ExitRing(k: KState)
    requires Shape(k) && k.curNext.None? && MayStep(k, Exit)
    ensures forall x :: x in k.ring && x != k.cur ==> x in ExitStep(k).ring
    ensures ExitStep(k).nodes == k.nodes
  {
    if !ExitRefused(k) {
      ExitRemovesCurrent(k);
      RemoveAtEntries(k.ring, Find(k, Cur(k).pid));
    }
  }

  lemma ExitOk(s: Sys, phase: Phase)
    requires PipelineOk(s, phase) && s.k.curNext.None? && s.k.cur != s.shell && MayStep(s.k, Exit)
    requires s.k.cur in s.pcs ==> Late(s.pcs[s.k.cur]) && !Holds(s.pcs[s.k.cur])
    ensures Core(s.(k := ExitStep(s.k)), phase)
  {
    ExitRing(s.k);
    ApartKeeps(s, phase, ExitStep(s.k));
  }

  lemma OtherApart(s: Sys, step: Step)
    requires Shape(s.k) && ByOthers(s, step)
    ensures Apart(s.k, Next(s.k, step), s)
    ensures step.Exit? || forall x :: x in s.k.ring ==> x in Next(s.k, step).ring
  {
    NextFramed(s.k, step);
    var k' := Next(s.k, step);
    forall i | 0 <= i < |s.k.nodes| ensures Kin(step, s.k.nodes[i], k'.nodes[i]) { }
  }

  lemma OtherOk(s: Sys, phase: Phase, step: Step)
    requires PipelineOk(s, phase) && EventGuard(s, Other(step))
    ensures Core(SysNext(s, Other(step)), phase)
  {
    if ByOthers(s, step) && Enabled(s.k, step) {
      if step.Exit? {
        ExitOk(s, phase);
      } else {
        OtherApart(s, step);
        ApartKeeps(s, phase, Next(s.k, step));
      }
    }
  }

  /** A signal with this payload is now pending at q, whose queue was empty, and a handler for
    it is at the end of the ring. */
  ghost predicate Arrived(k: KState, k': KState, q: nat, dword: nat) {
    var n := |k.nodes|;
    && q < n && |k'.nodes| == n + 1 && k'.ring == k.ring + [n]
    && (forall i :: 0 <= i < n && i != q ==> k'.nodes[i] == k.nodes[i])
    && k'.nodes[q] == k.nodes[q].(sigq := k'.nodes[q].sigq)
    && k'.nodes[n].handler && k'.nodes[n].parent == Some(q) && k'.nodes[n].sigq == k'.nodes[q].sigq
    && var sigq := k'.nodes[q].sigq;
       && sigq.callback == k.nodes[q].sigq.callback
       && sigq.rwlock && sigq.nextIndex == 1 && |sigq.queue| == PSIGNAL_QUEUE_SIZE
       && TopBitsUntouched(sigq.queue[0]) && ExtractPayload(sigq.queue[0]) == dword
  }

  /** A send to a process whose queue is empty is accepted. */
  lemma SendAccepted(k: KState, q: nat, dword: nat, space: Context)
    requires Shape(k) && q < |k.nodes| && First(k, q) && Empty(k.nodes[q].sigq)
    ensures Accepts(k, k.nodes[q].pid) && Target(k, k.nodes[q].pid) == q
    ensures SendStep(k, k.nodes[q].pid, dword, space).1 == EXIT_SUCCESS
  {
    FirstFound(k, q);
    assert ProcOk(k, k.cur) && ProcOk(k, q);
  }

  /** If the process has hooked and the sender's PID is not negative, the send creates a handler
    with a word to read. */
  lemma SendArrives(k: KState, q: nat, dword: nat, space: Context)
    requires Shape(k) && PidsFit(k) && dword < TWO_TO_THE_32
    requires q < |k.nodes| && First(k, q) && Empty(k.nodes[q].sigq) && k.nodes[q].sigq.callback.Some?
    requires Cur(k).handler ==> Cur(k).parent.Some? && Cur(k).parent.value < |k.nodes|
    requires 0 <= SenderPid(k)
    ensures Arrived(k, SendStep(k, k.nodes[q].pid, dword, space).0, q, dword)
  {
    SendAccepted(k, q, dword, space);
    AcceptNodes(k, k.nodes[q].pid, dword, space);
    PackRoundTrip(SenderPid(k), dword);
  }

  lemma KeyCore(s: Sys, k': KState, word: nat)
    requires Core(s, Idle) && Arrived(s.k, k', 0, PSIGNAL_KEYSTROKE) && word != 0
    ensures var n := |s.k.nodes|;
      Core(s.(k := k', pcs := s.pcs[n := InitLock], slot := word, accepted := s.accepted + [word]), InitUnread(n))
  {
  }

  lemma KeyEffect(s: Sys, scancode: nat, stray: SignedChar, space: Context)
    requires Shape(s.k) && KeyFires(s, scancode)
    requires s.k.nodes[0].sigq.callback == Some(INIT_CALLBACK)
    requires SendStep(s.k, 1, PSIGNAL_KEYSTROKE, space).1 == EXIT_SUCCESS
    requires Arrived(s.k, SendStep(s.k, 1, PSIGNAL_KEYSTROKE, space).0, 0, PSIGNAL_KEYSTROKE)
    ensures var word := KeyWord(scancode, Character(scancode, stray));
      KeyStep(s, scancode, stray, space) ==
        s.(k := SendStep(s.k, 1, PSIGNAL_KEYSTROKE, space).0, pcs := s.pcs[|s.k.nodes| := InitLock],
           slot := word, accepted := s.accepted + [word])
  {
  }

  lemma KeyOk(s: Sys, phase: Phase, scancode: nat, stray: SignedChar, space: Context)
    requires PipelineOk(s, phase) && EventGuard(s, Key(scancode, stray, space))
    ensures var e := Key(scancode, stray, space); Core(SysNext(s, e), NextPhase(s, phase, e))
  {
    if KeyFires(s, scancode) {
      assert phase == Idle;
      KeyArrives(s, space);
      KeyWordRoundTrip(scancode, Character(scancode, stray));
      KeyEffect(s, scancode, stray, space);
      KeyCore(s, SendStep(s.k, 1, PSIGNAL_KEYSTROKE, space).0, KeyWord(scancode, Character(scancode, stray)));
    }
  }

  lemma InitFirst(s: Sys)
    requires Shape(s.k)
    ensures First(s.k, 0) && s.k.nodes[0].pid == 1
  {
  }

  lemma KeyArrives(s: Sys, space: Context)
    requires PipelineOk(s, Idle)
    ensures SendStep(s.k, 1, PSIGNAL_KEYSTROKE, space).1 == EXIT_SUCCESS
    ensures Cur(s.k).handler ==> Cur(s.k).parent.Some? && Cur(s.k).parent.value < |s.k.nodes|
    ensures 0 <= SenderPid(s.k) ==>
      Arrived(s.k, SendStep(s.k, 1, PSIGNAL_KEYSTROKE, space).0, 0, PSIGNAL_KEYSTROKE)
  {
    InitFirst(s);
    assert ProcOk(s.k, s.k.cur);
    SendAccepted(s.k, 0, PSIGNAL_KEYSTROKE, space);
    if 0 <= SenderPid(s.k) { SendArrives(s.k, 0, PSIGNAL_KEYSTROKE, space); }
  }

  lemma ForwardCore(s: Sys, h: nat, k': KState)
    requires Core(s, InitRead(h)) && Arrived(s.k, k', s.shell, PSIGNAL_KEYSTROKE)
    ensures var n := |s.k.nodes|;
      Core(s.(k := k', pcs := s.pcs[h := InitRelease][n := ShellFetch]), ShellUnread(n))
  {
  }

  lemma ForwardArrives(s: Sys, h: nat, space: Context)
    requires PipelineOk(s, InitRead(h)) && s.k.cur == h
    ensures SendStep(s.k, s.shellPid, PSIGNAL_KEYSTROKE, space).1 == EXIT_SUCCESS
    ensures Arrived(s.k, SendStep(s.k, s.shellPid, PSIGNAL_KEYSTROKE, space).0, s.shell, PSIGNAL_KEYSTROKE)
  {
    SendAccepted(s.k, s.shell, PSIGNAL_KEYSTROKE, space);
    SendArrives(s.k, s.shell, PSIGNAL_KEYSTROKE, space);
  }

  lemma ForwardEffect(s: Sys, h: nat, space: Context)
    requires Shape(s.k) && s.k.curNext.None? && s.k.cur == h && h in s.pcs && s.pcs[h].InitForward?
    requires ExtractPayload(s.pcs[h].word) == PSIGNAL_KEYSTROKE && s.shell < |s.k.nodes|
    requires s.k.nodes[s.shell].sigq.callback == Some(SHELL_CALLBACK)
    requires Arrived(s.k, SendStep(s.k, s.shellPid, PSIGNAL_KEYSTROKE, space).0, s.shell, PSIGNAL_KEYSTROKE)
    ensures UserStep(s, space) ==
      s.(k := SendStep(s.k, s.shellPid, PSIGNAL_KEYSTROKE, space).0,
         pcs := s.pcs[h := InitRelease][|s.k.nodes| := ShellFetch])
  {
  }

  lemma ForwardOk(s: Sys, phase: Phase, space: Context)
    requires PipelineOk(s, phase) && s.k.curNext.None? && s.k.cur in s.pcs && s.pcs[s.k.cur].InitForward?
    ensures Core(UserStep(s, space), ShellUnread(|s.k.nodes|))
  {
    assert phase == InitRead(s.k.cur);
    ForwardArrives(s, s.k.cur, space);
    ForwardEffect(s, s.k.cur, space);
    ForwardCore(s, s.k.cur, SendStep(s.k, s.shellPid, PSIGNAL_KEYSTROKE, space).0);
  }

  lemma ForwardUserOk(s: Sys, phase: Phase, space: Context)
    requires PipelineOk(s, phase) && s.k.curNext.None? && s.k.cur in s.pcs && s.pcs[s.k.cur].InitForward?
    ensures Core(UserStep(s, space), NextPhase(s, phase, User(space)))
  {
    ForwardOk(s, phase, space);
    assert NextPhase(s, phase, User(space)) == ShellUnread(|s.k.nodes|);
  }

  /** Handler h has read the signal of q. */
  ghost predicate Popped(k: KState, k': KState, q: nat) {
    && q < |k.nodes| == |k'.nodes| && k'.ring == k.ring
    && (forall i :: 0 <= i < |k.nodes| && i != q ==> k'.nodes[i] == k.nodes[i])
    && k'.nodes[q] == k.nodes[q].(sigq := k.nodes[q].sigq.(rwlock := false, nextIndex := 0))
  }

  lemma ReadPops(k: KState, q: nat)
    requires Shape(k) && k.curNext.None? && q < |k.nodes|
    requires Cur(k).handler && Cur(k).parent == Some(q) && Cur(k).sigq.nextIndex == 1 && Full(k.nodes[q].sigq)
    ensures Popped(k, ReadStep(k).0, q) && ReadStep(k).1 == Word(k.nodes[q].sigq.queue[0])
  {
    ReadNodes(k);
  }

  lemma InitFetchCore(s: Sys, h: nat, k': KState, word: nat)
    requires Core(s, InitUnread(h)) && s.pcs[h].InitFetch? && Popped(s.k, k', 0)
    requires ExtractPayload(word) == PSIGNAL_KEYSTROKE
    ensures Core(s.(k := k', pcs := s.pcs[h := InitForward(word)]), InitRead(h))
  {
  }

  lemma ShellFetchCore(s: Sys, h: nat, k': KState)
    requires Core(s, ShellUnread(h)) && Popped(s.k, k', s.shell)
    ensures Core(s.(k := k', pcs := s.pcs[h := ShellKey]), ShellRead(h))
  {
  }

  lemma InitFetchOk(s: Sys, phase: Phase, space: Context)
    requires PipelineOk(s, phase) && s.k.curNext.None? && s.k.cur in s.pcs && s.pcs[s.k.cur].InitFetch?
    ensures Core(UserStep(s, space), NextPhase(s, phase, User(space)))
  {
    assert phase == InitUnread(s.k.cur);
    ReadPops(s.k, 0);
    InitFetchCore(s, s.k.cur, ReadStep(s.k).0, Fetched(s.k));
  }

  lemma ShellFetchOk(s: Sys, phase: Phase, space: Context)
    requires PipelineOk(s, phase) && s.k.curNext.None? && s.k.cur in s.pcs && s.pcs[s.k.cur].ShellFetch?
    ensures Core(UserStep(s, space), NextPhase(s, phase, User(space)))
  {
    assert phase == ShellUnread(s.k.cur);
    ReadPops(s.k, s.shell);
    ShellFetchCore(s, s.k.cur, ReadStep(s.k).0);
  }

  lemma LockCore(s: Sys, h: nat)
    requires Core(s, InitUnread(h)) && s.pcs[h].InitLock? && !s.lock
    ensures Core(s.(pcs := s.pcs[h := InitFetch], lock := true), InitUnread(h))
  {
  }

  lemma ReleaseCore(s: Sys, phase: Phase, h: nat)
    requires Core(s, phase) && h in s.pcs && s.pcs[h].InitRelease?
    ensures Core(s.(pcs := s.pcs[h := InitExit], lock := false), phase)
  {
  }

  lemma KeyFetchCore(s: Sys, h: nat)
    requires Core(s, ShellRead(h))
    ensures Core(s.(pcs := s.pcs[h := ShellExit], fetched := s.fetched + [s.slot], slot := 0), Idle)
  {
  }

  lemma LocalOk(s: Sys, phase: Phase, space: Context)
    requires PipelineOk(s, phase) && s.k.curNext.None? && s.k.cur in s.pcs
    requires var pc := s.pcs[s.k.cur]; pc.InitLock? || pc.InitRelease? || pc.ShellKey?
    ensures Core(UserStep(s, space), NextPhase(s, phase, User(space)))
  {
    match s.pcs[s.k.cur]
    case InitLock =>
      assert phase == InitUnread(s.k.cur);
      if !s.lock { LockCore(s, s.k.cur); }
    case InitRelease => ReleaseCore(s, phase, s.k.cur);
    case ShellKey =>
      assert phase == ShellRead(s.k.cur);
      KeyFetchCore(s, s.k.cur);
  }

  /** Where the keystroke goes with each event. */
  function NextPhase(s: Sys, phase: Phase, e: Event): Phase
    requires Shape(s.k)
  {
    match e
    case Key(scancode, _, _) => if KeyFires(s, scancode) then InitUnread(|s.k.nodes|) else phase
    case User(_) =>
      if s.k.curNext.None? && s.k.cur in s.pcs then
        match s.pcs[s.k.cur]
        case InitFetch => InitRead(s.k.cur)
        case InitForward(_) => ShellUnread(|s.k.nodes|)
        case ShellFetch => ShellRead(s.k.cur)
        case ShellKey => Idle
        case _ => phase
      else phase
    case _ => phase
  }

  lemma ExitUserOk(s: Sys, phase: Phase, space: Context)
    requires PipelineOk(s, phase) && EventGuard(s, User(space)) && s.k.curNext.None? && s.k.cur in s.pcs
    requires s.pcs[s.k.cur].InitExit? || s.pcs[s.k.cur].ShellExit?
    ensures Core(UserStep(s, space), NextPhase(s, phase, User(space)))
  {
    ExitOk(s, phase);
    assert UserStep(s, space) == s.(k := ExitStep(s.k)) && NextPhase(s, phase, User(space)) == phase;
  }

  lemma InitUserOk(s: Sys, phase: Phase, space: Context)
    requires PipelineOk(s, phase) && EventGuard(s, User(space))
    requires s.k.curNext.None? && s.k.cur in s.pcs && !ShellCode(s.pcs[s.k.cur])
    ensures Core(UserStep(s, space), NextPhase(s, phase, User(space)))
  {
    match s.pcs[s.k.cur]
    case InitForward(_) => ForwardUserOk(s, phase, space);
    case InitFetch => InitFetchOk(s, phase, space);
    case InitExit => ExitUserOk(s, phase, space);
    case _ => LocalOk(s, phase, space);
  }

  lemma ShellUserOk(s: Sys, phase: Phase, space: Context)
    requires PipelineOk(s, phase) && EventGuard(s, User(space))
    requires s.k.curNext.None? && s.k.cur in s.pcs && ShellCode(s.pcs[s.k.cur])
    ensures Core(UserStep(s, space), NextPhase(s, phase, User(space)))
  {
    match s.pcs[s.k.cur]
    case ShellFetch => ShellFetchOk(s, phase, space);
    case ShellExit => ExitUserOk(s, phase, space);
    case ShellKey => LocalOk(s, phase, space);
  }

  lemma EventCore(s: Sys, phase: Phase, e: Event)
    requires PipelineOk(s, phase) && EventGuard(s, e)
    ensures Core(SysNext(s, e), NextPhase(s, phase, e))
  {
    match e
    case Key(scancode, stray, space) => KeyOk(s, phase, scancode, stray, space);
    case Clock(saved) => ClockOk(s, phase, saved);
    case Other(step) => OtherOk(s, phase, step);
    case User(space) =>
      if s.k.curNext.None? && s.k.cur in s.pcs {
        if ShellCode(s.pcs[s.k.cur]) { ShellUserOk(s, phase, space); } else { InitUserOk(s, phase, space); }
      }
  }

  lemma ShellStays(s: Sys, e: Event)
    requires Shape(s.k)
    ensures SysNext(s, e).shell == s.shell
  {
  }

  /** Every guarded event keeps the pipeline in order and moves the keystroke to its next
    phase, if at all. */
  lemma EventOk(s: Sys, phase: Phase, e: Event)
    requires PipelineOk(s, phase) && EventGuard(s, e)
    ensures PipelineOk(SysNext(s, e), NextPhase(s, phase, e))
  {
    KernelOk(s, e);
    EventCore(s, phase, e);
    ShellStays(s, e);
  }

  lemma SysNextShape(s: Sys, e: Event)
    requires s.k.halted || Shape(s.k)
    ensures SysNext(s, e).k.halted || Shape(SysNext(s, e).k)
  {
    if Shape(s.k) {
      KernelStepTracks(s, e);
      if KernelStep(s, e).Some? { NextKeepsShape(s.k, KernelStep(s, e).value); }
    }
  }

  ghost function SysRun(s: Sys, events: seq<Event>): Sys
    requires s.k.halted || Shape(s.k)
    decreases |events|
  {
    if events == [] then s else (SysNextShape(s, events[0]); SysRun(SysNext(s, events[0]), events[1..]))
  }

  /** A keystroke is in the slot that nobody will ever fetch: every handler is done with its work,
    except perhaps one of init, whose signal reads as 0. */
  ghost predicate Dead(s: Sys) {
    && Shape(s.k) && s.slot != 0 && 0 !in s.pcs
    && (forall x :: x in s.pcs ==> x < |s.k.nodes| && s.k.nodes[x].handler)
    && (forall x, y :: x in s.pcs && y in s.pcs && !Late(s.pcs[x]) && !Late(s.pcs[y]) ==> x == y)
    && (forall x :: x in s.pcs && !Late(s.pcs[x]) ==>
          && (s.pcs[x].InitLock? || s.pcs[x].InitFetch?)
          && s.k.nodes[x].parent == Some(0) && s.k.nodes[x].sigq.nextIndex == 1
          && s.k.nodes[0].sigq.nextIndex == 1 && |s.k.nodes[0].sigq.queue| == PSIGNAL_QUEUE_SIZE
          && !TopBitsUntouched(s.k.nodes[0].sigq.queue[0]))
  }

  /** The signal that should announce the keystroke is pending, and reads as 0. */
  ghost predicate Unreadable(k: KState, k': KState) {
    var n := |k.nodes|;
    && Shape(k') && |k'.nodes| == n + 1
    && (forall i :: 0 < i < n ==> k'.nodes[i] == k.nodes[i])
    && k'.nodes[n].handler && k'.nodes[n].parent == Some(0) && k'.nodes[n].sigq == k'.nodes[0].sigq
    && var sigq := k'.nodes[0].sigq;
       && sigq.rwlock && sigq.nextIndex == 1 && |sigq.queue| == PSIGNAL_QUEUE_SIZE
       && sigq.callback == k.nodes[0].sigq.callback && !TopBitsUntouched(sigq.queue[0])
  }

  lemma SendUnreadable(s: Sys, space: Context)
    requires PipelineOk(s, Idle)
    requires Cur(s.k).handler ==> Cur(s.k).parent.Some? && Cur(s.k).parent.value < |s.k.nodes|
    requires SenderPid(s.k) < 0
    ensures var (k', status) := SendStep(s.k, 1, PSIGNAL_KEYSTROKE, space);
      status == EXIT_SUCCESS && Unreadable(s.k, k')
  {
    InitFirst(s);
    SendAccepted(s.k, 0, PSIGNAL_KEYSTROKE, space);
    AcceptNodes(s.k, 1, PSIGNAL_KEYSTROKE, space);
    SendKeepsShape(s.k, 1, PSIGNAL_KEYSTROKE, space);
    PackRoundTrip(SenderPid(s.k), PSIGNAL_KEYSTROKE);
  }

  lemma DeadCore(s: Sys, k': KState, word: nat)
    requires PipelineOk(s, Idle) && Unreadable(s.k, k') && word != 0
    ensures Dead(s.(k := k', pcs := s.pcs[|s.k.nodes| := InitLock], slot := word, accepted := s.accepted + [word]))
  {
  }

  lemma UnreadableEffect(s: Sys, scancode: nat, stray: SignedChar, space: Context)
    requires Shape(s.k) && KeyFires(s, scancode)
    requires s.k.nodes[0].sigq.callback == Some(INIT_CALLBACK)
    requires var (k', status) := SendStep(s.k, 1, PSIGNAL_KEYSTROKE, space);
      status == EXIT_SUCCESS && Unreadable(s.k, k')
    ensures var word := KeyWord(scancode, Character(scancode, stray));
      KeyStep(s, scancode, stray, space) ==
        s.(k := SendStep(s.k, 1, PSIGNAL_KEYSTROKE, space).0, pcs := s.pcs[|s.k.nodes| := InitLock],
           slot := word, accepted := s.accepted + [word])
  {
  }

  /** A key pressed while the process that executes has a negative PID is lost. */
  lemma KeyUnread(s: Sys, phase: Phase, e: Event)
    requires PipelineOk(s, phase) && e.Key? && !EventGuard(s, e)
    ensures var s' := SysNext(s, e);
      && phase == Idle && Shape(s'.k) && Dead(s')
      && !Empty(s'.k.nodes[0].sigq) && !Full(s'.k.nodes[0].sigq)
  {
    assert phase == Idle;
    assert ProcOk(s.k, s.k.cur);
    SendUnreadable(s, e.space);
    KeyWordRoundTrip(e.scancode, Character(e.scancode, e.stray));
    UnreadableEffect(s, e.scancode, e.stray, e.space);
    DeadCore(s, SendStep(s.k, 1, PSIGNAL_KEYSTROKE, e.space).0, KeyWord(e.scancode, Character(e.scancode, e.stray)));
  }

  lemma DeadApart(s: Sys, k': KState)
    requires Dead(s) && Apart(s.k, k', s) && Shape(k')
    ensures Dead(s.(k := k'))
  {
  }

  lemma DeadFetch(s: Sys, space: Context)
    requires Dead(s) && s.k.curNext.None? && s.k.cur in s.pcs && s.pcs[s.k.cur].InitFetch?
    ensures UserStep(s, space) == s.(k := ReadStep(s.k).0, pcs := s.pcs[s.k.cur := InitRelease])
    ensures Dead(UserStep(s, space))
  {
    ReadKeepsShape(s.k);
    ReadNodes(s.k);
    assert Fetched(s.k) == 0;
  }

  lemma DeadExit(s: Sys)
    requires Dead(s) && s.k.curNext.None? && !ExitStep(s.k).halted
    ensures Dead(s.(k := ExitStep(s.k)))
  {
    ExitKeepsShape(s.k);
  }

  lemma DeadLocal(s: Sys, space: Context)
    requires Dead(s) && s.k.curNext.None? && s.k.cur in s.pcs
    requires s.pcs[s.k.cur].InitLock? || s.pcs[s.k.cur].InitRelease?
    ensures Dead(UserStep(s, space)) && UserStep(s, space).fetched == s.fetched
  {
  }

  lemma DeadUser(s: Sys, space: Context)
    requires Dead(s) && s.k.curNext.None? && s.k.cur in s.pcs && !UserStep(s, space).k.halted
    ensures Dead(UserStep(s, space)) && UserStep(s, space).fetched == s.fetched
  {
    match s.pcs[s.k.cur]
    case InitFetch => DeadFetch(s, space);
    case InitExit => DeadExit(s);
    case ShellExit => DeadExit(s);
    case _ => DeadLocal(s, space);
  }

  lemma DeadStays(s: Sys, e: Event)
    requires Dead(s)
    ensures var s' := SysNext(s, e); (s'.k.halted || Dead(s')) && s'.fetched == s.fetched
  {
    SysNextShape(s, e);
    match e
    case Key(_, _, _) =>
    case Clock(saved) => ClockApart(s, saved); DeadApart(s, TickStep(s.k, saved));
    case Other(step) =>
      if ByOthers(s, step) {
        OtherApart(s, step);
        if !Next(s.k, step).halted { DeadApart(s, Next(s.k, step)); }
      }
    case User(space) =>
      if s.k.curNext.None? && s.k.cur in s.pcs && !UserStep(s, space).k.halted { DeadUser(s, space); }
  }

  lemma {:induction false} DeadForEver(s: Sys, events: seq<Event>)
    requires s.k.halted || Dead(s)
    ensures SysRun(s, events).fetched == s.fetched
    decreases |events|
  {
    if events == [] {
    } else {
      SysNextShape(s, events[0]);
      if !s.k.halted { DeadStays(s, events[0]); }
      DeadForEver(SysNext(s, events[0]), events[1..]);
    }
  }

  /** An event that is not guarded halts the kernel or leaves a keystroke that nobody comes for. */
  lemma Unguarded(s: Sys, phase: Phase, e: Event)
    requires PipelineOk(s, phase) && !EventGuard(s, e)
    ensures SysNext(s, e).k.halted || Dead(SysNext(s, e))
  {
    KernelStepTracks(s, e);
    if e.Key? {
      KeyUnread(s, phase, e);
    } else {
      MayStepRuns(s.k, KernelStep(s, e).value);
    }
  }

  /** After it nothing is ever fetched again. */
  lemma NothingAfterUnguarded(s: Sys, phase: Phase, e: Event, events: seq<Event>)
    requires PipelineOk(s, phase) && !EventGuard(s, e)
    ensures SysNext(s, e).k.halted || Shape(SysNext(s, e).k)
    ensures SysRun(SysNext(s, e), events).fetched == SysNext(s, e).fetched
  {
    Unguarded(s, phase, e);
    DeadForEver(SysNext(s, e), events);
  }

  /** The guard is exact: an event keeps the pipeline in order, in whatever phase, if and only if
    it is guarded. */
  lemma EventExact(s: Sys, phase: Phase, e: Event)
    requires PipelineOk(s, phase)
    ensures PipelineOk(SysNext(s, e), NextPhase(s, phase, e)) <==> EventGuard(s, e)
    ensures InOrder(SysNext(s, e)) <==> EventGuard(s, e)
  {
    KernelStepTracks(s, e);
    if KernelStep(s, e).Some? { MayStepRuns(s.k, KernelStep(s, e).value); }
    if EventGuard(s, e) {
      EventOk(s, phase, e);
    } else if e.Key? {
      KeyUnread(s, phase, e);
    }
  }

  /** Neither the interrupt handler's send nor init's is ever refused. */
  lemma SendsAreNeverBusy(s: Sys, phase: Phase, e: Event)
    requires PipelineOk(s, phase)
    requires KernelStep(s, e).Some? && KernelStep(s, e).value.Send?
    ensures var send := KernelStep(s, e).value;
      SendStep(s.k, send.to, send.dword, send.space).1 == EXIT_SUCCESS
  {
    if e.Key? { KeyArrives(s, e.space); } else { ForwardArrives(s, s.k.cur, e.space); }
  }

  /** A key that is pressed is accepted exactly when no keystroke is in flight, with its own scancode
    and character; one that is released never is.  Nothing is fetched meanwhile. */
  lemma KeyTaken(s: Sys, phase: Phase, scancode: nat, stray: SignedChar, space: Context)
    requires PipelineOk(s, phase)
    ensures var s' := SysNext(s, Key(scancode, stray, space));
      && s'.fetched == s.fetched
      && if scancode >= 0x80 || phase != Idle then s' == s
         else
           && |s'.accepted| == |s.accepted| + 1 && s'.accepted[..|s.accepted|] == s.accepted
           && s'.slot == s'.accepted[|s.accepted|]
           && ExtractScancode(s'.slot) == scancode && ExtractCharacter(s'.slot) == Character(scancode, stray) % 0x100
  {
    if KeyFires(s, scancode) {
      KeyArrives(s, space);
      KeyWordRoundTrip(scancode, Character(scancode, stray));
    }
  }

  // ----- runs -----------------------------------------------------------------------------

  ghost predicate AllGuarded(s: Sys, events: seq<Event>)
    requires s.k.halted || Shape(s.k)
    decreases |events|
  {
    events == [] ||
    (!s.k.halted && EventGuard(s, events[0]) &&
     (SysNextShape(s, events[0]); AllGuarded(SysNext(s, events[0]), events[1..])))
  }

  /** Every state of the run is in order. */
  ghost predicate AlwaysInOrder(s: Sys, events: seq<Event>)
    requires s.k.halted || Shape(s.k)
    decreases |events|
  {
    InOrder(s) && (events == [] || (SysNextShape(s, events[0]); AlwaysInOrder(SysNext(s, events[0]), events[1..])))
  }

  /** Over every run the pipeline stays in order all along if and only if every event is guarded. */
  lemma {:induction false} RunExact(s: Sys, events: seq<Event>)
    requires InOrder(s)
    ensures AlwaysInOrder(s, events) <==> AllGuarded(s, events)
    decreases |events|
  {
    if events == [] {
    } else {
      var phase :| PipelineOk(s, phase);
      EventExact(s, phase, events[0]);
      SysNextShape(s, events[0]);
      if EventGuard(s, events[0]) { RunExact(SysNext(s, events[0]), events[1..]); }
    }
  }

  lemma {:induction false} PipelineRun(s: Sys, phase: Phase, events: seq<Event>) returns (last: Phase)
    requires PipelineOk(s, phase) && AllGuarded(s, events)
    ensures PipelineOk(SysRun(s, events), last)
    decreases |events|
  {
    if events == [] {
      last := phase;
    } else {
      EventOk(s, phase, events[0]);
      last := PipelineRun(SysNext(s, events[0]), NextPhase(s, phase, events[0]), events[1..]);
    }
  }

  lemma OkIsNotDead(s: Sys, phase: Phase)
    requires PipelineOk(s, phase)
    ensures !Dead(s)
  {
  }

  lemma {:induction false} DeadRun(s: Sys, events: seq<Event>)
    requires s.k.halted || Dead(s)
    ensures SysRun(s, events).k.halted || Dead(SysRun(s, events))
    decreases |events|
  {
    if events == [] {
    } else {
      SysNextShape(s, events[0]);
      if !s.k.halted { DeadStays(s, events[0]); }
      DeadRun(SysNext(s, events[0]), events[1..]);
    }
  }

  /** A run is guarded all along if and only if it ends neither halted nor with a keystroke that
    nobody will ever fetch. */
  lemma {:induction false} GuardedIffAlive(s: Sys, phase: Phase, events: seq<Event>)
    requires PipelineOk(s, phase)
    ensures var r := SysRun(s, events); AllGuarded(s, events) <==> !r.k.halted && !Dead(r)
    decreases |events|
  {
    if events == [] {
      OkIsNotDead(s, phase);
    } else {
      var e := events[0];
      SysNextShape(s, e);
      if EventGuard(s, e) {
        EventOk(s, phase, e);
        GuardedIffAlive(SysNext(s, e), NextPhase(s, phase, e), events[1..]);
      } else {
        Unguarded(s, phase, e);
        DeadRun(SysNext(s, e), events[1..]);
      }
    }
  }

  /** The shell fetches exactly the accepted keystrokes, once each and in order: from a ready
    state, after every guarded run, what it has fetched is what was accepted, except for the
    one keystroke that is still in the slot, if any; and that keystroke is in exactly one
    phase. */
  lemma KeystrokesInOrder(s: Sys, events: seq<Event>)
    requires PipelineOk(s, Idle) && s.accepted == [] && AllGuarded(s, events)
    ensures var r := SysRun(s, events);
      && !r.k.halted
      && r.accepted == r.fetched + (if r.slot == 0 then [] else [r.slot])
      && exists phase :: PipelineOk(r, phase) && (phase == Idle <==> r.slot == 0)
  {
    var phase := PipelineRun(s, Idle, events);
    assert PipelineOk(SysRun(s, events), phase);
  }

  // ----- progress -------------------------------------------------------------------------

  /** How many instructions are left until the keystroke in flight is fetched. */
  function Work(s: Sys, phase: Phase): nat {
    match phase
    case Idle => 0
    case InitUnread(h) => if h in s.pcs && s.pcs[h].InitFetch? then 4 else if s.lock then 6 else 5
    case InitRead(_) => 3
    case ShellUnread(_) => 2
    case ShellRead(_) => 1
  }

  /** The handler that can execute the next of them: the one with the keystroke, or, while that
    one waits for init's mutex, the holder of the mutex. */
  ghost predicate Moves(s: Sys, phase: Phase, x: nat) {
    match phase
    case Idle => false
    case InitUnread(h) =>
      if h in s.pcs && s.pcs[h].InitLock? && s.lock then x in s.pcs && Holds(s.pcs[x]) else x == h
    case InitRead(h) => x == h
    case ShellUnread(h) => x == h
    case ShellRead(h) => x == h
  }

  /** No deadlock: while a keystroke is in flight, some live handler can execute its next
    instruction; round-robin scheduling (NoStarvation) gets it its turn. */
  lemma SomebodyMoves(s: Sys, phase: Phase) returns (x: nat)
    requires PipelineOk(s, phase) && phase != Idle
    ensures Moves(s, phase, x) && x in s.pcs && x in s.k.ring
  {
    x := phase.h;
    if phase.InitUnread? && s.pcs[x].InitLock? && s.lock {
      x :| x in s.pcs && Holds(s.pcs[x]);
    }
  }

  lemma UserWork(s: Sys, phase: Phase, space: Context)
    requires PipelineOk(s, phase) && phase != Idle && s.k.curNext.None? && s.k.cur in s.pcs
    ensures var (before, after) := (Work(s, phase), Work(UserStep(s, space), NextPhase(s, phase, User(space))));
      after <= before && (Moves(s, phase, s.k.cur) ==> after == before - 1)
  {
  }

  lemma MoverRuns(s: Sys, phase: Phase, x: nat)
    requires PipelineOk(s, phase) && Moves(s, phase, x)
    ensures x in s.pcs && x in s.k.ring
  {
  }

  /** Each turn of that handler brings the fetch closer by one instruction, and nothing that
    anybody else does pushes it back. */
  lemma WorkShrinks(s: Sys, phase: Phase, e: Event)
    requires PipelineOk(s, phase) && phase != Idle && EventGuard(s, e)
    ensures Work(SysNext(s, e), NextPhase(s, phase, e)) <= Work(s, phase)
    ensures e.User? && s.k.curNext.None? && Moves(s, phase, s.k.cur) ==>
      Work(SysNext(s, e), NextPhase(s, phase, e)) == Work(s, phase) - 1
  {
    if e.User? && s.k.curNext.None? {
      if s.k.cur in s.pcs { UserWork(s, phase, e.space); }
      if Moves(s, phase, s.k.cur) { MoverRuns(s, phase, s.k.cur); }
    }
  }
}
