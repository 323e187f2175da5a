/** The process table of kernel/src/proc/proc.c as a state machine on values.

  Every process structure that was ever allocated has an entry in `nodes`, at an index that
  plays the role of its address (kfree never gives memory back, see KHeap, so addresses are
  never reused).  `ring` is the chain that starts at queue_base and follows `next`; its last
  entry is queue_head.  The pointers themselves, and the proof that the C code keeps them in
  step with `ring`, are in ProcTable.

  Each step is atomic: system calls and interrupt handlers run with interrupts off. */
module ProcSpec {
  import opened Common

  const EXIT_SUCCESS: int := 0
  const EXIT_FAILURE: int := 1
  const ENOBUFS: int := 2
  const EPERM: int := 3
  const EBUSY: int := 6
  const EREJECTED: int := 7
  const EDRVCLAIMED: int := 8

  /** A permission mask is the set of its one bits. */
  type Mask = set<nat>

  const PPERM_PERM: nat := 0
  const PPERM_DRVCLAIM: nat := 1
  const PPERM_CONSOLE: nat := 2
  const PPERM_INITRD: nat := 3
  const PPERM_SUPER_ADMIN: Mask := {PPERM_CONSOLE, PPERM_DRVCLAIM, PPERM_PERM, PPERM_INITRD}

  const PSIGNAL_QUEUE_SIZE: nat := 3
  const DRVMASTER_MAX_SLAVES: nat := 25
  const DRIVERTYPE_COUNT: nat := 1
  const PID_MAX: int := 32767
  const TWO_TO_THE_48: nat := 0x1_0000_0000_0000

  /** PID_T is int16_t: arithmetic on it wraps. */
  function Wrap16(x: int): int {
    (x + 0x8000) % 0x1_0000 - 0x8000
  }

  /** A context switch treats the registers as one opaque value; CR3 is kept apart because a
    signal handler takes over its target's. */
  datatype Context = Context(regs: int, cr3: int)

  datatype PState = Blocked | Running | Ready

  datatype SignalQueue = SignalQueue(rwlock: bool, queue: seq<nat>, callback: Option<int>, nextIndex: nat)

  datatype Proc = Proc(
    pid: int, state: PState, perm: Mask, context: Context, groups: seq<nat>,
    handler: bool, sigq: SignalQueue, parent: Option<nat>)

  /** `curNext` is None while current_task is in the ring.  After an exit, current_task is the
    removed structure and `curNext` holds its stale `next` pointer. */
  datatype KState = KState(
    nodes: seq<Proc>, ring: seq<nat>, cur: nat, curNext: Option<nat>,
    nextPid: int, drivers: seq<bool>, halted: bool)

  datatype Step =
    | Spawn(perm: Mask, space: Context)
    | Send(to: int, dword: nat, space: Context)
    | Read
    | Exit
    | Tick(saved: Context)
    | Hook(callback: Option<int>)
    | Grant(pid: int, perms: Mask)
    | Revoke(pid: int, perms: Mask)
    | Claim(driver: nat)

  const EMPTY_QUEUE: SignalQueue := SignalQueue(false, [0, 0, 0], None, 0)

  // ----- well-formed states ---------------------------------------------------------------

  ghost predicate Distinct(s: seq<nat>) {
    forall i, j :: 0 <= i < j < |s| ==> s[i] != s[j]
  }

  ghost predicate ProcOk(k: KState, i: nat)
    requires i < |k.nodes|
  {
    var p := k.nodes[i];
    && |p.sigq.queue| == PSIGNAL_QUEUE_SIZE
    && (p.parent.Some? ==> p.parent.value < i && !k.nodes[p.parent.value].handler)
    && (p.handler ==> p.parent.Some? && p.sigq.rwlock)
    && (p.state == Running ==> i == k.cur)
  }

  /** What holds in every state the machine can reach without halting. */
  ghost predicate Shape(k: KState) {
    && !k.halted
    && 0 < |k.nodes|
    && 0 < |k.ring|
    && (forall i :: 0 <= i < |k.ring| ==> k.ring[i] < |k.nodes|)
    && Distinct(k.ring)
    && k.ring[0] == 0
    && k.nodes[0].pid == 1
    && !k.nodes[0].handler
    && k.cur < |k.nodes|
    && (k.curNext.None? ==> k.cur in k.ring)
    && (k.curNext.Some? ==> k.cur !in k.ring && k.curNext.value in k.ring)
    && |k.drivers| == DRIVERTYPE_COUNT
    && (forall i :: 0 <= i < |k.nodes| ==> ProcOk(k, i))
  }

  function Cur(k: KState): Proc
    requires k.cur < |k.nodes|
  {
    k.nodes[k.cur]
  }

  function PidAt(k: KState, i: nat): int
    requires i < |k.ring| && k.ring[i] < |k.nodes|
  {
    k.nodes[k.ring[i]].pid
  }

  ghost predicate RingOk(k: KState) {
    && 0 < |k.ring|
    && k.cur < |k.nodes|
    && forall i :: 0 <= i < |k.ring| ==> k.ring[i] < |k.nodes|
  }

  // ----- searching the ring ---------------------------------------------------------------

  /** The first ring position at or after `i` whose process has this PID; |ring| if none. */
  function FindFrom(k: KState, pid: int, i: nat): (r: nat)
    requires RingOk(k)
    requires i <= |k.ring|
    ensures i <= r <= |k.ring|
    ensures r < |k.ring| ==> PidAt(k, r) == pid
    ensures forall j :: i <= j < r ==> PidAt(k, j) != pid
    decreases |k.ring| - i
  {
    if i == |k.ring| || PidAt(k, i) == pid then i else FindFrom(k, pid, i + 1)
  }

  function Find(k: KState, pid: int): (r: nat)
    requires RingOk(k)
    ensures r <= |k.ring|
  {
    FindFrom(k, pid, 0)
  }

  /** perm_grant and perm_revoke look at queue_base last. */
  function FindBaseLast(k: KState, pid: int): (r: nat)
    requires RingOk(k)
    ensures r <= |k.ring|
  {
    var r := FindFrom(k, pid, 1);
    if r < |k.ring| then r else if PidAt(k, 0) == pid then 0 else |k.ring|
  }

  // ----- the operations -------------------------------------------------------------------

  function SetNode(k: KState, i: nat, p: Proc): KState
    requires i < |k.nodes|
  {
    k.(nodes := k.nodes[i := p])
  }

  /** proc_init. */
  function Init(context: Context): (k: KState)
    ensures Shape(k)
  {
    KState([Proc(1, Ready, PPERM_SUPER_ADMIN, context, [], false, EMPTY_QUEUE, None)],
           [0], 0, None, 2, seq(DRIVERTYPE_COUNT, _ => false), false)
  }

  function MayNotSpawn(k: KState, perm: Mask): bool
    requires k.cur < |k.nodes|
  {
    perm != {} && PPERM_PERM !in Cur(k).perm
  }

  function Append(k: KState, p: Proc): KState {
    k.(nodes := k.nodes + [p], ring := k.ring + [|k.nodes|], nextPid := Wrap16(k.nextPid + 1))
  }

  /** _spawn; `space` is the address space and stack that the memory managers supply. */
  function SpawnStep(k: KState, perm: Mask, space: Context): (KState, int)
    requires k.cur < |k.nodes|
  {
    if MayNotSpawn(k, perm) then (k, -EPERM)
    else (Append(k, Proc(k.nextPid, Ready, perm, space, [], false, EMPTY_QUEUE, None)), EXIT_SUCCESS)
  }

  /** The handler process that psignal_exec_callback builds for process `to`. */
  function HandlerFor(k: KState, to: nat, space: Context): Proc
    requires to < |k.nodes|
  {
    var t := k.nodes[to];
    Proc(k.nextPid, Ready, t.perm, space.(cr3 := t.context.cr3), [], true, t.sigq, Some(to))
  }

  function PackSignal(sender: int, dword: nat): nat {
    (sender % TWO_TO_THE_32) * TWO_TO_THE_32 + dword % TWO_TO_THE_32
  }

  function ExtractSource(word: nat): nat { word / TWO_TO_THE_32 % 0x1_0000 }

  function ExtractPayload(word: nat): nat { word % TWO_TO_THE_32 }

  predicate TopBitsUntouched(word: nat) { word / TWO_TO_THE_48 == 0 }

  /** The PID a signal is attributed to. */
  function SenderPid(k: KState): int
    requires k.cur < |k.nodes|
    requires Cur(k).handler ==> Cur(k).parent.Some? && Cur(k).parent.value < |k.nodes|
  {
    if Cur(k).handler then k.nodes[Cur(k).parent.value].pid else Cur(k).pid
  }

  function SendStatus(q: SignalQueue): int {
    if q.nextIndex >= PSIGNAL_QUEUE_SIZE then -EREJECTED else if q.rwlock then -EBUSY else EXIT_SUCCESS
  }

  function Pushed(q: SignalQueue, word: nat): SignalQueue
    requires q.nextIndex < PSIGNAL_QUEUE_SIZE == |q.queue|
  {
    q.(rwlock := true, queue := q.queue[q.nextIndex := word], nextIndex := q.nextIndex + 1)
  }

  /** psignal_send. */
  function SendStep(k: KState, to: int, dword: nat, space: Context): (KState, int)
    requires Shape(k)
  {
    assert ProcOk(k, k.cur);
    var pos := Find(k, to);
    if pos == |k.ring| then (k, -EXIT_FAILURE)
    else
      var t := k.ring[pos];
      assert ProcOk(k, t);
      var p := k.nodes[t];
      if SendStatus(p.sigq) != EXIT_SUCCESS then (k, SendStatus(p.sigq))
      else
        var q := Pushed(p.sigq, PackSignal(SenderPid(k), dword));
        var k1 := SetNode(k, t, p.(sigq := q));
        (if q.callback.None? then k1 else Append(k1, HandlerFor(k1, t, space)), EXIT_SUCCESS)
  }

  /** `OutOfBounds` is a read of queue[next_index - 1] outside the array. */
  datatype ReadResult = Word(word: nat) | OutOfBounds

  /** The process whose queue a read by current_task unlocks and pops. */
  function ReadOwner(k: KState): nat
    requires k.cur < |k.nodes|
  {
    if Cur(k).handler && Cur(k).parent.Some? then Cur(k).parent.value else k.cur
  }

  /** psignal_read.  A handler tests the next_index of its own copy of the queue and then pops
    its parent's; next_index is a uint8_t, so popping an empty queue leaves 255. */
  function ReadStep(k: KState): (KState, ReadResult)
    requires Shape(k)
  {
    assert ProcOk(k, k.cur);
    var owner := ReadOwner(k);
    assert ProcOk(k, owner);
    var p := k.nodes[owner];
    if Cur(k).sigq.nextIndex == 0 then
      (SetNode(k, owner, p.(sigq := p.sigq.(rwlock := false))), Word(0))
    else
      var index := (p.sigq.nextIndex - 1) % 256;
      var k1 := SetNode(k, owner, p.(sigq := p.sigq.(rwlock := false, nextIndex := index)));
      if index >= PSIGNAL_QUEUE_SIZE then (k1, OutOfBounds)
      else
        var word := p.sigq.queue[index];
        (k1, Word(if TopBitsUntouched(word) then word else 0))
  }

  function RemoveAt<T>(s: seq<T>, i: nat): seq<T>
    requires i < |s|
  {
    s[..i] + s[i + 1..]
  }

  function Head(k: KState): Proc
    requires RingOk(k)
  {
    k.nodes[k.ring[|k.ring| - 1]]
  }

  /** kill returns to the caller without removing anything. */
  predicate ExitRefused(k: KState)
    requires RingOk(k)
  {
    var pid := Cur(k).pid;
    pid == 1 || pid < 0 || pid > Head(k).pid || Find(k, pid) == |k.ring|
  }

  /** The final assertion of kill fails: some other process still has the PID. */
  predicate ExitHalts(k: KState)
    requires RingOk(k)
  {
    var pos := Find(k, Cur(k).pid);
    pos < |k.ring| && FindFrom(k, Cur(k).pid, pos + 1) < |k.ring|
  }

  /** next_pid after the head, whose predecessor has PID `before`, has exited. */
  function NextPidAfterHead(nextPid: int, before: int): int {
    var once := Wrap16(nextPid - 1);
    if once > before then Wrap16(once - 1) else once
  }

  /** exit, that is kill of the current task. */
  function ExitStep(k: KState): KState
    requires Shape(k) && k.curNext.None?
  {
    if ExitRefused(k) then k
    else if ExitHalts(k) then k.(halted := true)
    else
      var n := |k.ring|;
      var pos := Find(k, Cur(k).pid);
      assert pos != 0;
      k.(ring := RemoveAt(k.ring, pos),
         cur := k.ring[pos],
         curNext := Some(k.ring[if pos + 1 == n then 0 else pos + 1]),
         nextPid := if pos + 1 == n then NextPidAfterHead(k.nextPid, PidAt(k, n - 2)) else k.nextPid)
  }

  function PosFrom(s: seq<nat>, x: nat, i: nat): (r: nat)
    requires i <= |s|
    ensures i <= r <= |s|
    ensures r < |s| ==> s[r] == x
    ensures x in s[i..] ==> r < |s|
    decreases |s| - i
  {
    if i == |s| || s[i] == x then i else PosFrom(s, x, i + 1)
  }

  function Pos(s: seq<nat>, x: nat): (r: nat)
    requires x in s
    ensures r < |s| && s[r] == x
  {
    assert s[0..] == s;
    PosFrom(s, x, 0)
  }

  /** The ring position that the next tick gives the processor to. */
  function NextPos(k: KState): (r: nat)
    requires Shape(k)
    ensures r < |k.ring|
  {
    if k.curNext.Some? then Pos(k.ring, k.curNext.value)
    else if Pos(k.ring, k.cur) + 1 == |k.ring| then 0 else Pos(k.ring, k.cur) + 1
  }

  /** switch_task. */
  function TickStep(k: KState, saved: Context): KState
    requires Shape(k)
  {
    var next := k.ring[NextPos(k)];
    var k1 := SetNode(k, k.cur, Cur(k).(context := saved, state := Ready));
    SetNode(k1, next, k1.nodes[next].(state := Running)).(cur := next, curNext := None)
  }

  function HookStep(k: KState, callback: Option<int>): KState
    requires k.cur < |k.nodes|
  {
    SetNode(k, k.cur, Cur(k).(sigq := Cur(k).sigq.(callback := callback)))
  }

  /** perm_grant. */
  function GrantStep(k: KState, pid: int, perms: Mask): (KState, int)
    requires RingOk(k)
  {
    if PPERM_PERM !in Cur(k).perm then (k, -EPERM)
    else
      var pos := FindBaseLast(k, pid);
      if pos == |k.ring| then (k, EXIT_FAILURE)
      else
        var p := k.nodes[k.ring[pos]];
        (SetNode(k, k.ring[pos], p.(perm := p.perm + perms)), EXIT_SUCCESS)
  }

  /** perm_revoke. */
  function RevokeStep(k: KState, pid: int, perms: Mask): (KState, int)
    requires RingOk(k)
  {
    if PPERM_PERM !in Cur(k).perm then (k, -EPERM)
    else
      var pos := FindBaseLast(k, pid);
      if pos == |k.ring| then (k, -EXIT_FAILURE)
      else
        var p := k.nodes[k.ring[pos]];
        (SetNode(k, k.ring[pos], p.(perm := p.perm - perms)), EXIT_SUCCESS)
  }

  /** drv_claim; driver types are numbered from 1. */
  function ClaimStep(k: KState, driver: nat): (KState, int)
    requires k.cur < |k.nodes| && |k.drivers| == DRIVERTYPE_COUNT
  {
    if driver == 0 || driver > DRIVERTYPE_COUNT then (k, -EXIT_FAILURE)
    else if k.drivers[driver - 1] then (k, -EDRVCLAIMED)
    else if driver in Cur(k).groups then (k, -EXIT_FAILURE)
    else if |Cur(k).groups| == DRVMASTER_MAX_SLAVES - 1 then (k, -ENOBUFS)
    else if PPERM_DRVCLAIM !in Cur(k).perm then (k, -EPERM)
    else (SetNode(k, k.cur, Cur(k).(groups := Cur(k).groups + [driver])).(drivers := k.drivers[driver - 1 := true]),
          EXIT_SUCCESS)
  }

  /** verify_drvmaster. */
  predicate Owns(k: KState, i: nat, driver: nat)
    requires i < |k.nodes|
  {
    driver in k.nodes[i].groups
  }

  // ----- runs -----------------------------------------------------------------------------

  /** Interrupts (ticks, and the keyboard's send) arrive at any time.  Everything else is done
    by a process that is still in the ring. */
  predicate Enabled(k: KState, s: Step) {
    !k.halted && (k.curNext.None? || s.Tick? || s.Send?)
  }

  /** One step; a step that is not enabled changes nothing. */
  function Next(k: KState, s: Step): KState
    requires k.halted || Shape(k)
  {
    if !Enabled(k, s) then k
    else match s
      case Spawn(perm, space) => SpawnStep(k, perm, space).0
      case Send(to, dword, space) => SendStep(k, to, dword, space).0
      case Read => ReadStep(k).0
      case Exit => ExitStep(k)
      case Tick(saved) => TickStep(k, saved)
      case Hook(callback) => HookStep(k, callback)
      case Grant(pid, perms) => GrantStep(k, pid, perms).0
      case Revoke(pid, perms) => RevokeStep(k, pid, perms).0
      case Claim(driver) => ClaimStep(k, driver).0
  }
}
