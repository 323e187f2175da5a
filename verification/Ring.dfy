/** The process ring over whole runs: its shape always, its PID order exactly when every
  spawn and every exit along the way is guarded. */
module Ring {
  import opened Common
  import opened ProcSpec

  // ----- shape ----------------------------------------------------------------------------

  /** The two states have the same processes, PIDs and ring. */
  ghost predicate Quiet(k: KState, k': KState) {
    && k'.ring == k.ring && k'.nextPid == k.nextPid && |k'.nodes| == |k.nodes|
    && forall i :: 0 <= i < |k.nodes| ==> k'.nodes[i].pid == k.nodes[i].pid
  }

  lemma SetNodeKeepsShape(k: KState, i: nat, p: Proc)
    requires Shape(k) && i < |k.nodes|
    requires p.pid == k.nodes[i].pid && p.state == k.nodes[i].state
    requires p.handler == k.nodes[i].handler && p.parent == k.nodes[i].parent
    requires |p.sigq.queue| == PSIGNAL_QUEUE_SIZE && (p.handler ==> p.sigq.rwlock)
    ensures Shape(SetNode(k, i, p)) && Quiet(k, SetNode(k, i, p))
  {
    var k' := SetNode(k, i, p);
    forall j | 0 <= j < |k'.nodes| ensures ProcOk(k', j) {
      assert ProcOk(k, j);
    }
  }

  lemma AppendKeepsShape(k: KState, p: Proc)
    requires Shape(k)
    requires p.state == Ready && |p.sigq.queue| == PSIGNAL_QUEUE_SIZE
    requires p.parent.Some? ==> p.parent.value < |k.nodes| && !k.nodes[p.parent.value].handler
    requires p.handler ==> p.parent.Some? && p.sigq.rwlock
    ensures Shape(Append(k, p))
  {
    var k' := Append(k, p);
    forall j | 0 <= j < |k'.nodes| ensures ProcOk(k', j) {
      if j < |k.nodes| { assert ProcOk(k, j); }
    }
  }

  lemma SendKeepsShape(k: KState, to: int, dword: nat, space: Context)
    requires Shape(k)
    ensures Shape(SendStep(k, to, dword, space).0)
  {
    assert ProcOk(k, k.cur);
    var pos := Find(k, to);
    if pos < |k.ring| {
      var t := k.ring[pos];
      assert ProcOk(k, t);
      var p := k.nodes[t];
      if SendStatus(p.sigq) == EXIT_SUCCESS {
        var q := Pushed(p.sigq, PackSignal(SenderPid(k), dword));
        SetNodeKeepsShape(k, t, p.(sigq := q));
        var k1 := SetNode(k, t, p.(sigq := q));
        if q.callback.Some? {
          AppendKeepsShape(k1, HandlerFor(k1, t, space));
        }
      }
    }
  }

  /** The process that a send to this PID reaches. */
  function Target(k: KState, to: int): nat
    requires Shape(k) && Find(k, to) < |k.ring|
  {
    k.ring[Find(k, to)]
  }

  predicate Accepts(k: KState, to: int)
    requires Shape(k)
  {
    Find(k, to) < |k.ring| && SendStatus(k.nodes[Target(k, to)].sigq) == EXIT_SUCCESS
  }

  /** The structures after an accepted send. */
  lemma AcceptNodes(k: KState, to: int, dword: nat, space: Context)
    requires Shape(k) && Accepts(k, to)
    ensures Cur(k).handler ==> Cur(k).parent.Some? && Cur(k).parent.value < |k.nodes|
    ensures ProcOk(k, Target(k, to))
    ensures var k', q, n := SendStep(k, to, dword, space).0, Target(k, to), |k.nodes|;
      var sigq := Pushed(k.nodes[q].sigq, PackSignal(SenderPid(k), dword));
      && |k'.nodes| == (if sigq.callback.Some? then n + 1 else n)
      && (forall i :: 0 <= i < n && i != q ==> k'.nodes[i] == k.nodes[i])
      && k'.nodes[q] == k.nodes[q].(sigq := sigq)
      && (sigq.callback.Some? ==>
            k'.nodes[n].handler && k'.nodes[n].parent == Some(q) && k'.nodes[n].sigq == sigq)
  {
    assert ProcOk(k, k.cur) && ProcOk(k, Target(k, to));
  }

  /** The structures after a read. */
  lemma ReadNodes(k: KState)
    requires Shape(k)
    ensures var (k', owner) := (ReadStep(k).0, ReadOwner(k));
      && |k'.nodes| == |k.nodes| && owner < |k.nodes|
      && (forall i :: 0 <= i < |k.nodes| && i != owner ==> k'.nodes[i] == k.nodes[i])
      && k'.nodes[owner] == k.nodes[owner].(sigq := k'.nodes[owner].sigq)
      && k'.nodes[owner].sigq == k.nodes[owner].sigq.(rwlock := false,
           nextIndex := if Cur(k).sigq.nextIndex == 0 then k.nodes[owner].sigq.nextIndex
                        else (k.nodes[owner].sigq.nextIndex - 1) % 256)
  {
    assert ProcOk(k, k.cur);
  }

  lemma ReadKeepsShape(k: KState)
    requires Shape(k)
    ensures Shape(ReadStep(k).0) && Quiet(k, ReadStep(k).0)
  {
    assert ProcOk(k, k.cur);
    ReadNodes(k);
    var owner := ReadOwner(k);
    assert ProcOk(k, owner);
    SetNodeKeepsShape(k, owner, ReadStep(k).0.nodes[owner]);
  }

  lemma PosUnique(s: seq<nat>, i: nat)
    requires Distinct(s) && i < |s|
    ensures Pos(s, s[i]) == i
  {
  }

  /** Ring entries after a removal, in terms of those before it. */
  lemma RemoveAtEntries(s: seq<nat>, i: nat)
    requires Distinct(s) && i < |s|
    ensures var r := RemoveAt(s, i);
      && |r| == |s| - 1
      && (forall j :: 0 <= j < |r| ==> r[j] == s[if j < i then j else j + 1])
      && Distinct(r)
      && s[i] !in r
      && (forall x :: x in r <==> x in s && x != s[i])
  {
    var r := RemoveAt(s, i);
    forall x | x in s && x != s[i] ensures x in r {
      var j :| 0 <= j < |s| && s[j] == x;
      assert r[if j < i then j else j - 1] == x;
    }
  }

  /** An exit that goes through removes current_task itself. */
  lemma ExitRemovesCurrent(k: KState)
    requires Shape(k) && k.curNext.None? && !ExitRefused(k) && !ExitHalts(k)
    ensures var pos := Find(k, Cur(k).pid);
      0 < pos < |k.ring| && k.ring[pos] == k.cur && Pos(k.ring, k.cur) == pos
      && (pos + 1 == |k.ring| <==> Cur(k).pid == Head(k).pid)
  {
    var pos := Find(k, Cur(k).pid);
    var c := Pos(k.ring, k.cur);
    assert PidAt(k, c) == Cur(k).pid;
    var again := FindFrom(k, Cur(k).pid, pos + 1);
    assert !(pos < c);
    PosUnique(k.ring, c);
    assert PidAt(k, |k.ring| - 1) == Head(k).pid;
  }

  lemma ExitKeepsShape(k: KState)
    requires Shape(k) && k.curNext.None?
    ensures ExitStep(k).halted || Shape(ExitStep(k))
  {
    if !ExitRefused(k) && !ExitHalts(k) {
      var k' := ExitStep(k);
      var pos := Find(k, Cur(k).pid);
      ExitRemovesCurrent(k);
      RemoveAtEntries(k.ring, pos);
      forall j | 0 <= j < |k'.nodes| ensures ProcOk(k', j) {
        assert ProcOk(k, j);
      }
    }
  }

  lemma TickKeepsShape(k: KState, saved: Context)
    requires Shape(k)
    ensures Shape(TickStep(k, saved)) && Quiet(k, TickStep(k, saved))
  {
    var k' := TickStep(k, saved);
    forall j | 0 <= j < |k'.nodes| ensures ProcOk(k', j) {
      assert ProcOk(k, j);
    }
  }

  lemma HookKeepsShape(k: KState, callback: Option<int>)
    requires Shape(k)
    ensures Shape(HookStep(k, callback)) && Quiet(k, HookStep(k, callback))
  {
    assert ProcOk(k, k.cur);
    SetNodeKeepsShape(k, k.cur, Cur(k).(sigq := Cur(k).sigq.(callback := callback)));
  }

  lemma PermKeepsShape(k: KState, i: nat, perm: Mask)
    requires Shape(k) && i < |k.nodes|
    ensures Shape(SetNode(k, i, k.nodes[i].(perm := perm))) && Quiet(k, SetNode(k, i, k.nodes[i].(perm := perm)))
  {
    assert ProcOk(k, i);
    SetNodeKeepsShape(k, i, k.nodes[i].(perm := perm));
  }

  lemma GrantKeepsShape(k: KState, pid: int, perms: Mask)
    requires Shape(k)
    ensures Shape(GrantStep(k, pid, perms).0) && Quiet(k, GrantStep(k, pid, perms).0)
  {
    var pos := FindBaseLast(k, pid);
    if pos < |k.ring| {
      PermKeepsShape(k, k.ring[pos], k.nodes[k.ring[pos]].perm + perms);
    }
  }

  lemma RevokeKeepsShape(k: KState, pid: int, perms: Mask)
    requires Shape(k)
    ensures Shape(RevokeStep(k, pid, perms).0) && Quiet(k, RevokeStep(k, pid, perms).0)
  {
    var pos := FindBaseLast(k, pid);
    if pos < |k.ring| {
      PermKeepsShape(k, k.ring[pos], k.nodes[k.ring[pos]].perm - perms);
    }
  }

  lemma ClaimKeepsShape(k: KState, driver: nat)
    requires Shape(k)
    ensures Shape(ClaimStep(k, driver).0) && Quiet(k, ClaimStep(k, driver).0)
  {
    assert ProcOk(k, k.cur);
    var k1 := SetNode(k, k.cur, Cur(k).(groups := Cur(k).groups + [driver]));
    SetNodeKeepsShape(k, k.cur, Cur(k).(groups := Cur(k).groups + [driver]));
    var k' := ClaimStep(k, driver).0;
    forall j | 0 <= j < |k'.nodes| ensures ProcOk(k', j) {
      assert ProcOk(k, j) && ProcOk(k1, j);
    }
  }

  /** What a step other than send and read leaves alone in a process structure. */
  ghost predicate Kin(s: Step, p: Proc, p': Proc) {
    && p'.pid == p.pid && p'.handler == p.handler && p'.parent == p.parent
    && p'.sigq == p.sigq.(callback := p'.sigq.callback)
    && (s.Hook? || p'.sigq == p.sigq)
    && (s.Grant? || s.Revoke? || p'.perm == p.perm)
    && (s.Claim? || p'.groups == p.groups)
  }

  ghost predicate Framed(s: Step, k: KState, k': KState) {
    && |k.nodes| <= |k'.nodes|
    && (forall i :: 0 <= i < |k.nodes| ==> Kin(s, k.nodes[i], k'.nodes[i]))
    && (forall i :: |k.nodes| <= i < |k'.nodes| ==>
          !k'.nodes[i].handler && k'.nodes[i].sigq == EMPTY_QUEUE && k'.nodes[i].groups == [])
    && (s.Claim? || k'.drivers == k.drivers)
    && (s.Exit? || forall x :: x in k.ring ==> x in k'.ring)
  }

  lemma MaskFramed(s: Step, k: KState, i: nat, perm: Mask)
    requires i < |k.nodes| && (s.Grant? || s.Revoke?)
    ensures Framed(s, k, SetNode(k, i, k.nodes[i].(perm := perm)))
  {
  }

  lemma GrantFramed(k: KState, pid: int, perms: Mask)
    requires RingOk(k)
    ensures Framed(Grant(pid, perms), k, GrantStep(k, pid, perms).0)
  {
    var pos := FindBaseLast(k, pid);
    if pos < |k.ring| { MaskFramed(Grant(pid, perms), k, k.ring[pos], k.nodes[k.ring[pos]].perm + perms); }
  }

  lemma RevokeFramed(k: KState, pid: int, perms: Mask)
    requires RingOk(k)
    ensures Framed(Revoke(pid, perms), k, RevokeStep(k, pid, perms).0)
  {
    var pos := FindBaseLast(k, pid);
    if pos < |k.ring| { MaskFramed(Revoke(pid, perms), k, k.ring[pos], k.nodes[k.ring[pos]].perm - perms); }
  }

  lemma ClaimFramed(k: KState, driver: nat)
    requires RingOk(k) && |k.drivers| == DRIVERTYPE_COUNT
    ensures Framed(Claim(driver), k, ClaimStep(k, driver).0)
  {
  }

  lemma SpawnFramed(k: KState, perm: Mask, space: Context)
    requires RingOk(k)
    ensures Framed(Spawn(perm, space), k, SpawnStep(k, perm, space).0)
  {
  }

  lemma TickFramed(k: KState, saved: Context)
    requires Shape(k)
    ensures Framed(Tick(saved), k, TickStep(k, saved))
  {
  }

  lemma ExitFramed(k: KState)
    requires Shape(k) && k.curNext.None?
    ensures Framed(Exit, k, ExitStep(k))
  {
  }

  lemma HookFramed(k: KState, callback: Option<int>)
    requires RingOk(k)
    ensures Framed(Hook(callback), k, HookStep(k, callback))
  {
  }

  lemma SameFramed(k: KState, s: Step)
    ensures Framed(s, k, k)
  {
  }

  lemma NextFramed(k: KState, s: Step)
    requires Shape(k) && !s.Send? && !s.Read?
    ensures Framed(s, k, Next(k, s))
  {
    if !Enabled(k, s) {
      SameFramed(k, s);
    } else {
      match s
      case Spawn(perm, space) => SpawnFramed(k, perm, space);
      case Tick(saved) => TickFramed(k, saved);
      case Grant(pid, perms) => GrantFramed(k, pid, perms);
      case Revoke(pid, perms) => RevokeFramed(k, pid, perms);
      case Claim(driver) => ClaimFramed(k, driver);
      case Hook(callback) => HookFramed(k, callback);
      case Exit => ExitFramed(k);
    }
  }

  lemma OtherKeepsShape(k: KState, s: Step)
    requires Shape(k) && Enabled(k, s) && !s.Spawn? && !s.Send? && !s.Exit?
    ensures Shape(Next(k, s)) && Quiet(k, Next(k, s))
  {
    match s
    case Read => ReadKeepsShape(k);
    case Tick(saved) => TickKeepsShape(k, saved);
    case Hook(callback) => HookKeepsShape(k, callback);
    case Grant(pid, perms) => GrantKeepsShape(k, pid, perms);
    case Revoke(pid, perms) => RevokeKeepsShape(k, pid, perms);
    case Claim(driver) => ClaimKeepsShape(k, driver);
  }

  lemma NextKeepsShape(k: KState, s: Step)
    requires Shape(k)
    ensures Next(k, s).halted || Shape(Next(k, s))
  {
    if Enabled(k, s) {
      match s
      case Spawn(perm, space) =>
        AppendKeepsShape(k, Proc(k.nextPid, Ready, perm, space, [], false, EMPTY_QUEUE, None));
      case Send(to, dword, space) => SendKeepsShape(k, to, dword, space);
      case Exit => ExitKeepsShape(k);
      case _ => OtherKeepsShape(k, s);
    }
  }

  /** No step but an exit takes a process out of the ring; new ones come at the end, with PID
    next_pid; and no PID ever changes. */
  ghost predicate Extends(k: KState, k': KState) {
    && |k.nodes| <= |k'.nodes| && |k'.ring| - |k.ring| == |k'.nodes| - |k.nodes| <= 1
    && k.ring <= k'.ring
    && (forall i :: 0 <= i < |k.nodes| ==> k'.nodes[i].pid == k.nodes[i].pid)
    && (if |k'.nodes| == |k.nodes| then k'.nextPid == k.nextPid
        else k'.ring[|k.ring|] == |k.nodes| && k'.nodes[|k.nodes|].pid == k.nextPid
             && k'.nextPid == Wrap16(k.nextPid + 1))
  }

  lemma AppendExtends(k: KState, k1: KState, p: Proc)
    requires Quiet(k, k1) && p.pid == k.nextPid
    ensures Extends(k, Append(k1, p))
  {
  }

  lemma SendExtends(k: KState, to: int, dword: nat, space: Context)
    requires Shape(k)
    ensures Extends(k, SendStep(k, to, dword, space).0)
    ensures |SendStep(k, to, dword, space).0.nodes| > |k.nodes| <==> MakesHandler(k, to)
  {
    assert ProcOk(k, k.cur);
    if Accepts(k, to) {
      var t := Target(k, to);
      assert ProcOk(k, t);
      var q := Pushed(k.nodes[t].sigq, PackSignal(SenderPid(k), dword));
      var k1 := SetNode(k, t, k.nodes[t].(sigq := q));
      if q.callback.Some? { AppendExtends(k, k1, HandlerFor(k1, t, space)); }
    }
  }

  lemma NextExtends(k: KState, s: Step)
    requires Shape(k) && !s.Exit?
    ensures Extends(k, Next(k, s))
    ensures |Next(k, s).nodes| > |k.nodes| <==> Creates(k, s)
  {
    if Enabled(k, s) {
      match s
      case Spawn(perm, space) =>
        AppendExtends(k, k, Proc(k.nextPid, Ready, perm, space, [], false, EMPTY_QUEUE, None));
      case Send(to, dword, space) => SendExtends(k, to, dword, space);
      case _ => OtherKeepsShape(k, s);
    }
  }

  /** PID_T arithmetic gives the 16-bit number that is equal modulo 2^16. */
  lemma Wrap16Is(x: int)
    ensures -0x8000 <= Wrap16(x) <= PID_MAX && (x - Wrap16(x)) % 0x1_0000 == 0
  {
  }

  /** Nothing is pending, nobody has hooked, and the lock is free. */
  predicate NeverUsed(q: SignalQueue) {
    !q.rwlock && q.nextIndex == 0 && q.callback.None? && |q.queue| == PSIGNAL_QUEUE_SIZE
  }

  /** Process n is new, the last in the ring, and has PID next_pid; all others are as they were, but
    for the queue of process q. */
  ghost predicate Joins(k: KState, k': KState, q: nat) {
    var n := |k.nodes|;
    && |k'.nodes| == n + 1 && k'.ring == k.ring + [n]
    && k'.cur == k.cur && k'.curNext == k.curNext && k'.drivers == k.drivers && !k'.halted
    && (forall i :: 0 <= i < n && i != q ==> k'.nodes[i] == k.nodes[i])
    && k'.nodes[n].pid == k.nextPid && k'.nodes[n].state == Ready && k'.nodes[n].groups == []
  }

  /** _spawn refuses exactly a mask asked for by a process that may not grant permissions, and then
    nothing changes.  Else the new process has the mask and the context given, and nothing more. */
  lemma SpawnMakes(k: KState, perm: Mask, space: Context)
    requires Shape(k)
    ensures var (k', status) := SpawnStep(k, perm, space);
      && status == (if perm != {} && PPERM_PERM !in Cur(k).perm then -EPERM else EXIT_SUCCESS)
      && (status == -EPERM ==> k' == k)
      && (status == EXIT_SUCCESS ==>
            && Joins(k, k', |k.nodes|)
            && var p := k'.nodes[|k.nodes|];
               p.perm == perm && p.context == space && !p.handler && p.parent.None? && NeverUsed(p.sigq))
  {
  }

  /** The handler that an accepted send to a hooked process creates has that process's mask and
    address space; its registers are its own. */
  lemma SendMakes(k: KState, to: int, dword: nat, space: Context)
    requires Shape(k) && MakesHandler(k, to)
    ensures var (k', t) := (SendStep(k, to, dword, space).0, Target(k, to));
      && Joins(k, k', t)
      && var p := k'.nodes[|k.nodes|];
         && p.perm == k.nodes[t].perm && p.context.cr3 == k.nodes[t].context.cr3 && p.context.regs == space.regs
         && p.handler && p.parent == Some(t) && p.sigq == k'.nodes[t].sigq
  {
    AcceptNodes(k, to, dword, space);
  }

  /** The step makes a new process. */
  predicate Creates(k: KState, s: Step)
    requires Shape(k)
  {
    Enabled(k, s) &&
    match s
    case Spawn(perm, space) => !MayNotSpawn(k, perm)
    case Send(to, dword, space) => MakesHandler(k, to)
    case _ => false
  }

  /** A send to this PID is accepted by a process that has hooked. */
  predicate MakesHandler(k: KState, to: int)
    requires Shape(k)
  {
    Accepts(k, to) && k.nodes[Target(k, to)].sigq.callback.Some?
  }

  /** The state after a whole run. */
  ghost function Run(k: KState, steps: seq<Step>): (r: KState)
    requires k.halted || Shape(k)
    ensures r.halted || Shape(r)
    decreases |steps|
  {
    if steps == [] then k
    else
      assert Next(k, steps[0]).halted || Shape(Next(k, steps[0])) by {
        if Shape(k) { NextKeepsShape(k, steps[0]); }
      }
      Run(Next(k, steps[0]), steps[1..])
  }

  lemma InitShape(context: Context)
    ensures Shape(Init(context)) && PidOrder(Init(context))
  {
    var k := Init(context);
    assert ProcOk(k, 0);
  }

  // ----- distinct PIDs ----------------------------------------------------------------------

  /** No two live processes have the same PID. */
  ghost predicate UniquePids(k: KState)
    requires RingOk(k)
  {
    forall i, j :: 0 <= i < j < |k.ring| ==> PidAt(k, i) != PidAt(k, j)
  }

  /** Then locate_proc never mistakes one process for another. */
  lemma LocateCorrect(k: KState, pid: int, i: nat)
    requires Shape(k) && UniquePids(k) && i < |k.ring|
    ensures Find(k, pid) == i <==> PidAt(k, i) == pid
    ensures Find(k, pid) == |k.ring| <==> forall j :: 0 <= j < |k.ring| ==> PidAt(k, j) != pid
  {
  }

  /** Can be decided before the step: a process is created only while next_pid is not the PID of a
    live process. */
  ghost predicate FreshPid(k: KState, s: Step)
    requires Shape(k)
  {
    Creates(k, s) ==> forall i :: 0 <= i < |k.ring| ==> PidAt(k, i) != k.nextPid
  }

  /** The last assertion of kill holds, and an exit leaves PIDs distinct. */
  lemma ExitUnique(k: KState)
    requires Shape(k) && UniquePids(k) && k.curNext.None?
    ensures !ExitStep(k).halted && RingOk(ExitStep(k)) && UniquePids(ExitStep(k))
  {
    if !ExitRefused(k) {
      var k', pos := ExitStep(k), Find(k, Cur(k).pid);
      RemoveAtEntries(k.ring, pos);
      assert PidAt(k, pos) == Cur(k).pid;
      forall j | 0 <= j < |k'.ring| ensures PidAt(k', j) == PidAt(k, if j < pos then j else j + 1) { }
    }
  }

  lemma ExtendsUnique(k: KState, k': KState)
    requires Shape(k) && Shape(k') && UniquePids(k) && Extends(k, k')
    ensures UniquePids(k') <==>
      (|k'.nodes| > |k.nodes| ==> forall i :: 0 <= i < |k.ring| ==> PidAt(k, i) != k.nextPid)
  {
    forall i | 0 <= i < |k.ring| ensures k'.ring[i] == k.ring[i] && PidAt(k', i) == PidAt(k, i) { }
    if |k'.nodes| > |k.nodes| { assert PidAt(k', |k.ring|) == k.nextPid; }
  }

  /** One step keeps PIDs distinct exactly when it creates no process under a PID in use; and the
    kernel does not halt. */
  lemma NextUnique(k: KState, s: Step)
    requires Shape(k) && UniquePids(k)
    ensures Shape(Next(k, s)) && (UniquePids(Next(k, s)) <==> FreshPid(k, s))
  {
    NextKeepsShape(k, s);
    if s.Exit? {
      if Enabled(k, s) { ExitUnique(k); }
    } else {
      NextExtends(k, s);
      ExtendsUnique(k, Next(k, s));
    }
  }

  ghost predicate AllFreshPids(k: KState, steps: seq<Step>)
    requires k.halted || Shape(k)
    decreases |steps|
  {
    steps == [] ||
    (!k.halted && FreshPid(k, steps[0]) &&
     (NextKeepsShape(k, steps[0]); AllFreshPids(Next(k, steps[0]), steps[1..])))
  }

  ghost predicate AlwaysUnique(k: KState, steps: seq<Step>)
    requires k.halted || Shape(k)
    decreases |steps|
  {
    Shape(k) && UniquePids(k) &&
    (steps == [] || (NextKeepsShape(k, steps[0]); AlwaysUnique(Next(k, steps[0]), steps[1..])))
  }

  /** Over every run PIDs stay distinct, locate_proc correct and the kernel alive, exactly when no
    process is ever created under a PID in use. */
  lemma {:induction false} RunUnique(k: KState, steps: seq<Step>)
    requires Shape(k) && UniquePids(k)
    ensures AlwaysUnique(k, steps) <==> AllFreshPids(k, steps)
    decreases |steps|
  {
    if steps == [] {
    } else {
      NextUnique(k, steps[0]);
      if FreshPid(k, steps[0]) { RunUnique(Next(k, steps[0]), steps[1..]); }
    }
  }

  /** What exit does in any state: it is refused exactly to init, to a negative PID and to a PID
    above that of queue_head; else it halts the kernel exactly when another live process has the
    PID; else it removes the process, and the one behind it is next.  Only the exit of the last
    process changes next_pid: by two, or by one when that already leaves it no higher than the PID
    of the new queue_head. */
  lemma ExitDoes(k: KState)
    requires Shape(k) && k.curNext.None?
    ensures var (k', pid, n, c) := (ExitStep(k), Cur(k).pid, |k.ring|, Pos(k.ring, k.cur));
      if pid == 1 || pid < 0 || pid > PidAt(k, n - 1) then k' == k
      else if exists i :: 0 <= i < n && i != c && PidAt(k, i) == pid then k' == k.(halted := true)
      else
        && 0 < c && k'.ring == k.ring[..c] + k.ring[c + 1..] && k'.cur == k.cur
        && k'.curNext == Some(k.ring[(c + 1) % n])
        && k'.nodes == k.nodes && k'.drivers == k.drivers && !k'.halted
        && (c + 1 < n ==> k'.nextPid == k.nextPid)
        && (c + 1 == n && -0x8000 <= k.nextPid - 2 <= PID_MAX - 2 ==>
              k'.nextPid == k.nextPid - if k.nextPid - 1 > PidAt(k, n - 2) then 2 else 1)
  {
    var pid, c := Cur(k).pid, Pos(k.ring, k.cur);
    assert PidAt(k, c) == pid && PidAt(k, |k.ring| - 1) == Head(k).pid;
    if !ExitRefused(k) {
      if ExitHalts(k) { HaltsForAnother(k); } else { ExitRemovesCurrent(k); OnlyOne(k); NextIndex(c, |k.ring|); }
    }
  }

  lemma HaltsForAnother(k: KState)
    requires Shape(k) && k.curNext.None? && ExitHalts(k)
    ensures exists i :: 0 <= i < |k.ring| && i != Pos(k.ring, k.cur) && PidAt(k, i) == Cur(k).pid
  {
    var pos := Find(k, Cur(k).pid);
    var again := FindFrom(k, Cur(k).pid, pos + 1);
    assert PidAt(k, pos) == Cur(k).pid && PidAt(k, again) == Cur(k).pid;
  }

  lemma OnlyOne(k: KState)
    requires Shape(k) && k.curNext.None? && !ExitRefused(k) && !ExitHalts(k)
    ensures forall i :: 0 <= i < |k.ring| && i != Pos(k.ring, k.cur) ==> PidAt(k, i) != Cur(k).pid
  {
    ExitRemovesCurrent(k);
    var again := FindFrom(k, Cur(k).pid, Find(k, Cur(k).pid) + 1);
  }

  lemma NextIndex(c: nat, n: nat)
    requires c < n
    ensures (c + 1) % n == if c + 1 == n then 0 else c + 1
  {
  }

  // ----- PID order ------------------------------------------------------------------------

  /** PIDs increase from queue_base to queue_head and next_pid is above them all. */
  ghost predicate PidOrder(k: KState)
    requires RingOk(k)
  {
    && (forall i, j :: 0 <= i < j < |k.ring| ==> PidAt(k, i) < PidAt(k, j))
    && (forall i :: 0 <= i < |k.ring| ==> 1 <= PidAt(k, i) < k.nextPid)
    && k.nextPid <= PID_MAX
  }

  ghost predicate Ordered(k: KState) {
    Shape(k) && PidOrder(k)
  }

  /** Can be decided before the step: a process may be created while next_pid can still grow,
    and the head may exit when its predecessor's PID is below next_pid - 2. */
  predicate Guard(k: KState, s: Step)
    requires Shape(k)
  {
    && (Creates(k, s) ==> k.nextPid < PID_MAX)
    && (s.Exit? && Enabled(k, s) && k.cur != 0 && k.cur == k.ring[|k.ring| - 1] ==>
          PidAt(k, |k.ring| - 2) < k.nextPid - 2)
  }

  /** locate_proc is correct in an ordered ring. */
  lemma FindOrdered(k: KState, i: nat)
    requires Ordered(k) && i < |k.ring|
    ensures Find(k, PidAt(k, i)) == i
    ensures FindFrom(k, PidAt(k, i), i + 1) == |k.ring|
  {
  }

  lemma ExitOrdered(k: KState)
    requires Ordered(k) && k.curNext.None?
    ensures ExitRefused(k) <==> k.cur == 0
    ensures !ExitHalts(k)
  {
    var c := Pos(k.ring, k.cur);
    FindOrdered(k, c);
    assert PidAt(k, |k.ring| - 1) == Head(k).pid;
    assert PidAt(k, c) == Cur(k).pid;
    if k.cur == 0 { } else { assert c != 0; assert PidAt(k, 0) < PidAt(k, c); }
  }

  lemma HeadExitOrder(k: KState)
    requires Ordered(k) && k.curNext.None? && k.cur != 0 && k.cur == k.ring[|k.ring| - 1]
    ensures Ordered(ExitStep(k)) <==> PidAt(k, |k.ring| - 2) < k.nextPid - 2
  {
    var k', n := ExitStep(k), |k.ring|;
    ExitOrdered(k);
    ExitKeepsShape(k);
    ExitRemovesCurrent(k);
    ExitPids(k);
    PosUnique(k.ring, n - 1);
    assert PidAt(k, n - 2) < PidAt(k, n - 1) < k.nextPid;
    assert k'.nextPid == k.nextPid - 2;
    assert PidAt(k', n - 2) == PidAt(k, n - 2);
  }

  lemma InnerExitOrder(k: KState)
    requires Ordered(k) && k.curNext.None? && k.cur != k.ring[|k.ring| - 1]
    ensures Ordered(ExitStep(k))
  {
    ExitOrdered(k);
    if k.cur != 0 {
      ExitKeepsShape(k);
      ExitRemovesCurrent(k);
      ExitPids(k);
    }
  }

  lemma ExitOrder(k: KState)
    requires Ordered(k) && k.curNext.None?
    ensures Ordered(ExitStep(k)) <==> Guard(k, Exit)
  {
    if k.cur != k.ring[|k.ring| - 1] {
      InnerExitOrder(k);
    } else if k.cur == 0 {
      ExitOrdered(k);
    } else {
      HeadExitOrder(k);
    }
  }

  lemma ExitPids(k: KState)
    requires Ordered(k) && k.curNext.None? && !ExitRefused(k) && !ExitHalts(k)
    ensures var k', pos := ExitStep(k), Find(k, Cur(k).pid);
      && RingOk(k') && |k'.ring| == |k.ring| - 1
      && (forall j :: 0 <= j < |k'.ring| ==> PidAt(k', j) == PidAt(k, if j < pos then j else j + 1))
      && (forall i, j :: 0 <= i < j < |k'.ring| ==> PidAt(k', i) < PidAt(k', j))
  {
    ExitRemovesCurrent(k);
    RemoveAtEntries(k.ring, Find(k, Cur(k).pid));
  }

  lemma AppendOrder(k: KState, p: Proc)
    requires Ordered(k) && p.pid == k.nextPid
    ensures RingOk(Append(k, p)) && (PidOrder(Append(k, p)) <==> k.nextPid < PID_MAX)
  {
    var k' := Append(k, p);
    var n := |k.ring|;
    assert PidAt(k', n) == k.nextPid;
    forall i | 0 <= i < n ensures PidAt(k', i) == PidAt(k, i) { }
    if k.nextPid < PID_MAX {
      assert PidAt(k, 0) < k.nextPid;
      assert k'.nextPid == k.nextPid + 1;
      forall i, j | 0 <= i < j <= n ensures PidAt(k', i) < PidAt(k', j) { }
    } else {
      assert k'.nextPid < 0 && !(1 <= PidAt(k', n) < k'.nextPid);
    }
  }

  lemma QuietOrder(k: KState, k': KState)
    requires Ordered(k) && Shape(k') && Quiet(k, k')
    ensures Ordered(k')
  {
    forall i | 0 <= i < |k.ring| ensures PidAt(k', i) == PidAt(k, i) { }
  }

  lemma OtherOrder(k: KState, s: Step)
    requires Ordered(k) && Enabled(k, s) && !s.Spawn? && !s.Send? && !s.Exit?
    ensures Ordered(Next(k, s))
  {
    match s
    case Read => ReadKeepsShape(k); QuietOrder(k, Next(k, s));
    case Tick(saved) => TickKeepsShape(k, saved); QuietOrder(k, Next(k, s));
    case Hook(callback) => HookKeepsShape(k, callback); QuietOrder(k, Next(k, s));
    case Grant(pid, perms) => GrantKeepsShape(k, pid, perms); QuietOrder(k, Next(k, s));
    case Revoke(pid, perms) => RevokeKeepsShape(k, pid, perms); QuietOrder(k, Next(k, s));
    case Claim(driver) => ClaimKeepsShape(k, driver); QuietOrder(k, Next(k, s));
  }

  /** One step keeps the order exactly when it is guarded. */
  lemma NextOrder(k: KState, s: Step)
    requires Ordered(k)
    ensures Ordered(Next(k, s)) <==> Guard(k, s)
  {
    if Enabled(k, s) {
      match s
      case Spawn(perm, space) =>
        NextKeepsShape(k, s);
        AppendOrder(k, Proc(k.nextPid, Ready, perm, space, [], false, EMPTY_QUEUE, None));
      case Send(to, dword, space) => SendOrder(k, to, dword, space);
      case Exit => ExitOrder(k);
      case _ => OtherOrder(k, s);
    }
  }

  lemma SendOrder(k: KState, to: int, dword: nat, space: Context)
    requires Ordered(k)
    ensures Ordered(SendStep(k, to, dword, space).0) <==> Guard(k, Send(to, dword, space))
  {
    SendKeepsShape(k, to, dword, space);
    assert ProcOk(k, k.cur);
    var pos := Find(k, to);
    if pos < |k.ring| {
      var t := k.ring[pos];
      assert ProcOk(k, t);
      var p := k.nodes[t];
      if SendStatus(p.sigq) == EXIT_SUCCESS {
        var q := Pushed(p.sigq, PackSignal(SenderPid(k), dword));
        SetNodeKeepsShape(k, t, p.(sigq := q));
        var k1 := SetNode(k, t, p.(sigq := q));
        QuietOrder(k, k1);
        if q.callback.Some? { AppendOrder(k1, HandlerFor(k1, t, space)); }
      }
    }
  }

  /** Every step of the run passes its guard. */
  ghost predicate Guarded(k: KState, steps: seq<Step>)
    requires k.halted || Shape(k)
    decreases |steps|
  {
    steps == [] ||
    (!k.halted && Guard(k, steps[0]) &&
     (NextKeepsShape(k, steps[0]); Guarded(Next(k, steps[0]), steps[1..])))
  }

  /** Every state of the run is ordered and none has halted. */
  ghost predicate AlwaysOrdered(k: KState, steps: seq<Step>)
    requires k.halted || Shape(k)
    decreases |steps|
  {
    Ordered(k) &&
    (steps == [] || (NextKeepsShape(k, steps[0]); AlwaysOrdered(Next(k, steps[0]), steps[1..])))
  }

  /** From an ordered state, a run stays ordered (so that locate_proc is correct and the
    assertions of _spawn, psignal_exec_callback and kill hold) exactly when it is guarded. */
  lemma {:induction false} RunOrder(k: KState, steps: seq<Step>)
    requires Ordered(k)
    ensures AlwaysOrdered(k, steps) <==> Guarded(k, steps)
    decreases |steps|
  {
    if steps == [] {
    } else {
      NextOrder(k, steps[0]);
      if Guard(k, steps[0]) {
        RunOrder(Next(k, steps[0]), steps[1..]);
      } else {
        NextKeepsShape(k, steps[0]);
      }
    }
  }
}
