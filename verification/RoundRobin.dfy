/** Round-robin scheduling: no live process waits for more than one lap of the ring. */
module RoundRobin {
  import opened Common
  import opened ProcSpec
  import opened Ring

  /** How many ticks it takes until `p` runs, if nothing but ticks happens. */
  function Distance(k: KState, p: nat): (d: nat)
    requires Shape(k) && p in k.ring
    ensures 1 <= d <= |k.ring|
  {
    var i, start := Pos(k.ring, p), NextPos(k);
    if i >= start then i - start + 1 else i - start + |k.ring| + 1
  }

  /** The step is a tick that gives the processor to `p`. */
  ghost predicate Runs(k: KState, s: Step, p: nat)
    requires k.halted || Shape(k)
  {
    !k.halted && s.Tick? && k.ring[NextPos(k)] == p
  }

  function TickCount(steps: seq<Step>): nat {
    if steps == [] then 0 else (if steps[0].Tick? then 1 else 0) + TickCount(steps[1..])
  }

  /** `p` is waiting in the ring: alive, and not the process that executes now. */
  ghost predicate Waits(k: KState, p: nat) {
    Shape(k) && p in k.ring && k.cur != p
  }

  /** No step of the run gives the processor to `p`. */
  ghost predicate NeverRuns(k: KState, steps: seq<Step>, p: nat)
    requires k.halted || Shape(k)
    decreases |steps|
  {
    steps == [] ||
    (!Runs(k, steps[0], p) &&
     (NextShape(k, steps[0]); NeverRuns(Next(k, steps[0]), steps[1..], p)))
  }

  lemma NextShape(k: KState, s: Step)
    requires k.halted || Shape(k)
    ensures Next(k, s).halted || Shape(Next(k, s))
  {
    if Shape(k) { NextKeepsShape(k, s); }
  }

  lemma TickDistance(k: KState, saved: Context, p: nat)
    requires Waits(k, p)
    ensures var k' := TickStep(k, saved);
      if k.ring[NextPos(k)] == p then Distance(k, p) == 1
      else Waits(k', p) && Distance(k', p) == Distance(k, p) - 1 && k'.nodes[p] == k.nodes[p]
  {
    TickKeepsShape(k, saved);
    PosUnique(k.ring, NextPos(k));
  }

  /** Where p and the next process are before and after an exit that goes through. */
  lemma ExitPositions(k: KState, p: nat)
    requires Waits(k, p) && k.curNext.None? && !ExitStep(k).halted && !ExitRefused(k)
    ensures var (k', n, c, i) := (ExitStep(k), |k.ring|, Pos(k.ring, k.cur), Pos(k.ring, p));
      && 0 < c && i != c && |k'.ring| == n - 1 && Shape(k') && k'.cur == k.cur && p in k'.ring
      && NextPos(k) == (if c + 1 == n then 0 else c + 1)
      && NextPos(k') == (if c + 1 == n then 0 else c)
      && Pos(k'.ring, p) == (if i < c then i else i - 1)
  {
    ExitKeepsShape(k);
    ExitRemovesCurrent(k);
    RemovedPositions(k.ring, Pos(k.ring, k.cur), Pos(k.ring, p));
  }

  lemma ExitDistance(k: KState, p: nat)
    requires Waits(k, p) && k.curNext.None? && !ExitStep(k).halted
    ensures var k' := ExitStep(k);
      Waits(k', p) && Distance(k', p) == Distance(k, p) && k'.nodes == k.nodes
  {
    if !ExitRefused(k) { ExitPositions(k, p); }
  }

  /** Where the entries of a ring are after the one at c has gone: entry i, and the one that
    followed c. */
  lemma RemovedPositions(ring: seq<nat>, c: nat, i: nat)
    requires Distinct(ring) && 0 < c < |ring| && i < |ring| && i != c
    ensures var r := RemoveAt(ring, c);
      && |r| == |ring| - 1
      && ring[i] in r && Pos(r, ring[i]) == (if i < c then i else i - 1)
      && var next := ring[if c + 1 == |ring| then 0 else c + 1];
         next in r && Pos(r, next) == (if c + 1 == |ring| then 0 else c)
  {
    RemoveAtEntries(ring, c);
    PosUnique(RemoveAt(ring, c), if i < c then i else i - 1);
    PosUnique(RemoveAt(ring, c), if c + 1 == |ring| then 0 else c);
  }

  lemma AppendDistance(k: KState, p: nat, q: Proc)
    requires Waits(k, p) && Shape(Append(k, q))
    ensures var k' := Append(k, q);
      Waits(k', p) && Distance(k', p) <= Distance(k, p) + 1 && k'.nodes[p] == k.nodes[p]
  {
    var k' := Append(k, q);
    PosUnique(k'.ring, Pos(k.ring, p));
    if k.curNext.Some? {
      PosUnique(k'.ring, Pos(k.ring, k.curNext.value));
    } else {
      PosUnique(k'.ring, Pos(k.ring, k.cur));
    }
  }

  /** What a step other than a tick to `p` does to the wait of `p`. */
  ghost predicate Progress(k: KState, s: Step, k': KState, p: nat)
    requires Waits(k, p)
  {
    && Waits(k', p)
    && |k.nodes| <= |k'.nodes|
    && Distance(k', p) <= Distance(k, p) - (if s.Tick? then 1 else 0) + |k'.nodes| - |k.nodes|
    && k'.nodes[p].context == k.nodes[p].context
  }

  lemma SendProgress(k: KState, to: int, dword: nat, space: Context, p: nat)
    requires Waits(k, p)
    ensures Progress(k, Send(to, dword, space), SendStep(k, to, dword, space).0, p)
  {
    if Accepts(k, to) { AcceptProgress(k, to, dword, space, p); }
  }

  lemma AcceptProgress(k: KState, to: int, dword: nat, space: Context, p: nat)
    requires Waits(k, p) && Accepts(k, to)
    ensures Progress(k, Send(to, dword, space), SendStep(k, to, dword, space).0, p)
  {
    assert ProcOk(k, k.cur);
    var t := Target(k, to);
    assert ProcOk(k, t);
    var sigq := Pushed(k.nodes[t].sigq, PackSignal(SenderPid(k), dword));
    var k1 := SetNode(k, t, k.nodes[t].(sigq := sigq));
    QueueWaits(k, t, sigq, p);
    if sigq.callback.Some? {
      SendKeepsShape(k, to, dword, space);
      AppendDistance(k1, p, HandlerFor(k1, t, space));
    }
  }

  lemma QueueWaits(k: KState, t: nat, sigq: SignalQueue, p: nat)
    requires Waits(k, p) && t < |k.nodes|
    requires |sigq.queue| == PSIGNAL_QUEUE_SIZE && sigq.rwlock
    ensures var k1 := SetNode(k, t, k.nodes[t].(sigq := sigq));
      Waits(k1, p) && Distance(k1, p) == Distance(k, p) && k1.nodes[p].context == k.nodes[p].context
  {
    SetNodeKeepsShape(k, t, k.nodes[t].(sigq := sigq));
  }

  lemma QuietProgress(k: KState, s: Step, k': KState, p: nat)
    requires Waits(k, p) && Shape(k') && Quiet(k, k') && k'.cur == k.cur && k'.curNext == k.curNext
    requires !s.Tick? && k'.nodes[p].context == k.nodes[p].context
    ensures Progress(k, s, k', p)
  {
  }

  lemma QueueProgress(k: KState, p: nat)
    requires Waits(k, p) && k.curNext.None?
    ensures Progress(k, Read, ReadStep(k).0, p)
    ensures forall callback :: Progress(k, Hook(callback), HookStep(k, callback), p)
  {
    ReadKeepsShape(k);
    QuietProgress(k, Read, ReadStep(k).0, p);
    forall callback ensures Progress(k, Hook(callback), HookStep(k, callback), p) {
      HookKeepsShape(k, callback);
      QuietProgress(k, Hook(callback), HookStep(k, callback), p);
    }
  }

  lemma PermProgress(k: KState, pid: int, perms: Mask, p: nat)
    requires Waits(k, p) && k.curNext.None?
    ensures Progress(k, Grant(pid, perms), GrantStep(k, pid, perms).0, p)
    ensures Progress(k, Revoke(pid, perms), RevokeStep(k, pid, perms).0, p)
  {
    GrantKeepsShape(k, pid, perms);
    RevokeKeepsShape(k, pid, perms);
    QuietProgress(k, Grant(pid, perms), GrantStep(k, pid, perms).0, p);
    QuietProgress(k, Revoke(pid, perms), RevokeStep(k, pid, perms).0, p);
  }

  lemma ClaimProgress(k: KState, driver: nat, p: nat)
    requires Waits(k, p) && k.curNext.None?
    ensures Progress(k, Claim(driver), ClaimStep(k, driver).0, p)
  {
    ClaimKeepsShape(k, driver);
    QuietProgress(k, Claim(driver), ClaimStep(k, driver).0, p);
  }

  lemma OtherProgress(k: KState, s: Step, p: nat)
    requires Waits(k, p) && Enabled(k, s) && !s.Spawn? && !s.Send? && !s.Exit? && !s.Tick?
    ensures Progress(k, s, Next(k, s), p)
  {
    match s
    case Read => QueueProgress(k, p);
    case Hook(callback) => QueueProgress(k, p); assert Progress(k, Hook(callback), HookStep(k, callback), p);
    case Grant(pid, perms) => PermProgress(k, pid, perms, p);
    case Revoke(pid, perms) => PermProgress(k, pid, perms, p);
    case Claim(driver) => ClaimProgress(k, driver, p);
  }

  lemma SpawnProgress(k: KState, perm: Mask, space: Context, p: nat)
    requires Waits(k, p)
    ensures Progress(k, Spawn(perm, space), SpawnStep(k, perm, space).0, p)
  {
    if !MayNotSpawn(k, perm) {
      var q := Proc(k.nextPid, Ready, perm, space, [], false, EMPTY_QUEUE, None);
      AppendKeepsShape(k, q);
      AppendDistance(k, p, q);
    }
  }

  lemma NextProgress(k: KState, s: Step, p: nat)
    requires Waits(k, p) && !Runs(k, s, p) && !Next(k, s).halted
    ensures Progress(k, s, Next(k, s), p)
  {
    if Enabled(k, s) {
      match s
      case Spawn(perm, space) => SpawnProgress(k, perm, space, p);
      case Send(to, dword, space) => SendProgress(k, to, dword, space, p);
      case Exit => ExitDistance(k, p);
      case Tick(saved) => TickDistance(k, saved, p);
      case _ => OtherProgress(k, s, p);
    }
  }

  lemma {:induction false} HaltedStays(k: KState, steps: seq<Step>)
    requires k.halted
    ensures Run(k, steps) == k
    decreases |steps|
  {
    if steps == [] {
    } else {
      HaltedStays(Next(k, steps[0]), steps[1..]);
    }
  }

  /** Over any run in which it does not run, a waiting process stays alive, keeps its saved
    context, and comes closer by one place per tick, at worst pushed back by one place per
    process created meanwhile. */
  lemma {:induction false} WaitShrinks(k: KState, steps: seq<Step>, p: nat)
    requires Waits(k, p) && NeverRuns(k, steps, p) && !Run(k, steps).halted
    ensures var r := Run(k, steps);
      && Waits(r, p)
      && Distance(r, p) <= Distance(k, p) - TickCount(steps) + |r.nodes| - |k.nodes|
      && r.nodes[p].context == k.nodes[p].context
    decreases |steps|
  {
    if steps == [] {
    } else {
      var k' := Next(k, steps[0]);
      NextShape(k, steps[0]);
      if k'.halted { HaltedStays(k', steps[1..]); }
      NextProgress(k, steps[0], p);
      WaitShrinks(k', steps[1..], p);
    }
  }

  /** No starvation: a run with enough ticks lets every waiting process run. */
  lemma NoStarvation(k: KState, steps: seq<Step>, p: nat)
    requires Waits(k, p) && !Run(k, steps).halted
    requires TickCount(steps) >= Distance(k, p) + |Run(k, steps).nodes| - |k.nodes|
    ensures !NeverRuns(k, steps, p)
  {
    if NeverRuns(k, steps, p) {
      WaitShrinks(k, steps, p);
    }
  }

  /** The context that switch_task loads. */
  function Restored(k: KState): Context
    requires Shape(k)
  {
    k.nodes[k.ring[NextPos(k)]].context
  }

  /** A process alone in the ring is switched to itself, with the context just saved. */
  lemma AloneResumes(k: KState, saved: Context)
    requires Shape(k) && k.curNext.None? && k.ring[NextPos(k)] == k.cur
    ensures TickStep(k, saved).cur == k.cur && Cur(TickStep(k, saved)).context == saved && k.ring == [k.cur]
  {
    PosUnique(k.ring, NextPos(k));
    assert |k.ring| == 1;
  }

  /** A process that is switched out resumes, when it is next switched in, with the context
    saved at the switch-out, whatever the other processes did meanwhile: at once if it is alone. */
  lemma ResumesWhereItStopped(k: KState, saved: Context, steps: seq<Step>)
    requires Shape(k) && k.curNext.None?
    ensures var k1 := TickStep(k, saved);
      && Shape(k1)
      && (k1.cur == k.cur ==> Cur(k1).context == saved)
      && (k1.cur != k.cur && NeverRuns(k1, steps, k.cur) && !Run(k1, steps).halted
            && Run(k1, steps).ring[NextPos(Run(k1, steps))] == k.cur ==>
          Restored(Run(k1, steps)) == saved)
  {
    var k1 := TickStep(k, saved);
    TickKeepsShape(k, saved);
    if k1.cur == k.cur {
      AloneResumes(k, saved);
    } else if NeverRuns(k1, steps, k.cur) && !Run(k1, steps).halted {
      WaitShrinks(k1, steps, k.cur);
    }
  }

  /** What a new process is first switched in with, whatever happened since its creation: the
    context given to _spawn; and for a signal handler the registers given and the address space
    of the process that the signal was sent to. */
  lemma StartsAsMade(k: KState, s: Step, steps: seq<Step>)
    requires Shape(k) && Creates(k, s)
    ensures var (k', p) := (Next(k, s), |k.nodes|);
      && Waits(k', p)
      && (NeverRuns(k', steps, p) && !Run(k', steps).halted && Run(k', steps).ring[NextPos(Run(k', steps))] == p ==>
            Restored(Run(k', steps)) ==
              if s.Spawn? then s.space else Context(s.space.regs, k.nodes[Target(k, s.to)].context.cr3))
  {
    var k', p := Next(k, s), |k.nodes|;
    NextKeepsShape(k, s);
    if s.Spawn? { SpawnMakes(k, s.perm, s.space); } else { SendMakes(k, s.to, s.dword, s.space); }
    assert k'.ring[|k.ring|] == p;
    if NeverRuns(k', steps, p) && !Run(k', steps).halted { WaitShrinks(k', steps, p); }
  }

  /** Every process but current_task is READY, and current_task is READY or RUNNING. */
  ghost predicate NobodyBlocked(k: KState) {
    forall i :: 0 <= i < |k.nodes| ==> k.nodes[i].state != Blocked
  }

  lemma NextBlocksNobody(k: KState, s: Step)
    requires Shape(k) && NobodyBlocked(k)
    ensures NobodyBlocked(Next(k, s))
  {
    match s
    case Send(to, dword, space) => SendBlocksNobody(k, to, dword, space);
    case Read => ReadNodes(k);
    case _ =>
  }

  lemma SendBlocksNobody(k: KState, to: int, dword: nat, space: Context)
    requires Shape(k) && NobodyBlocked(k)
    ensures NobodyBlocked(SendStep(k, to, dword, space).0)
  {
    assert ProcOk(k, k.cur);
    if Accepts(k, to) {
      AcceptNodes(k, to, dword, space);
      if MakesHandler(k, to) { SendMakes(k, to, dword, space); }
    }
  }

  lemma {:induction false} RunBlocksNobody(k: KState, steps: seq<Step>)
    requires (k.halted || Shape(k)) && NobodyBlocked(k)
    ensures NobodyBlocked(Run(k, steps))
    decreases |steps|
  {
    if steps == [] {
    } else {
      NextShape(k, steps[0]);
      if !k.halted { NextBlocksNobody(k, steps[0]); }
      RunBlocksNobody(Next(k, steps[0]), steps[1..]);
    }
  }

  /** In every state of every run every process but current_task is marked READY; after a tick
    current_task is marked RUNNING. */
  lemma OnlyCurrentRuns(context: Context, steps: seq<Step>, saved: Context, p: nat)
    requires var r := Run(Init(context), steps); !r.halted && p < |r.nodes|
    ensures var r := Run(Init(context), steps);
      && (p != r.cur ==> r.nodes[p].state == Ready)
      && Shape(TickStep(r, saved)) && Cur(TickStep(r, saved)).state == Running
  {
    var r := Run(Init(context), steps);
    RunBlocksNobody(Init(context), steps);
    TickKeepsShape(r, saved);
    assert ProcOk(r, p);
  }
}
