/** How permissions spread, and who owns a driver, over whole runs. */
module Permissions {
  import opened Common
  import opened ProcSpec
  import opened Ring
  import RoundRobin

  // ----- permission masks -----------------------------------------------------------------

  predicate MayGrant(p: Proc) { PPERM_PERM in p.perm }

  /** Neither a live process nor current_task may grant permissions. */
  ghost predicate NobodyGrants(k: KState) {
    && Shape(k)
    && !MayGrant(Cur(k))
    && forall i :: i in k.ring ==> i < |k.nodes| && !MayGrant(k.nodes[i])
  }

  /** Processes created after the first `from`: an ordinary one has no permission at all, a
    handler has exactly its target's. */
  ghost predicate MaskOk(k: KState, from: nat, i: nat)
    requires i < |k.nodes|
  {
    var p := k.nodes[i];
    i < from ||
    (if p.handler then p.parent.Some? && p.parent.value < |k.nodes| && p.perm == k.nodes[p.parent.value].perm
     else p.perm == {})
  }

  ghost predicate MasksSettled(k: KState, k': KState) {
    && NobodyGrants(k')
    && |k.nodes| <= |k'.nodes|
    && (forall i :: 0 <= i < |k.nodes| ==> k'.nodes[i].perm == k.nodes[i].perm)
    && (forall i :: 0 <= i < |k'.nodes| ==> MaskOk(k', |k.nodes|, i))
  }

  lemma KeptMasks(k0: KState, k: KState, k': KState)
    requires MasksSettled(k0, k) && NobodyGrants(k') && |k'.nodes| == |k.nodes|
    requires forall i :: 0 <= i < |k.nodes| ==>
      k'.nodes[i].perm == k.nodes[i].perm && k'.nodes[i].handler == k.nodes[i].handler
      && k'.nodes[i].parent == k.nodes[i].parent
    ensures MasksSettled(k0, k')
  {
    forall i | 0 <= i < |k'.nodes| ensures MaskOk(k', |k0.nodes|, i) {
      assert MaskOk(k, |k0.nodes|, i);
    }
  }

  lemma AppendedMask(k0: KState, k: KState, p: Proc)
    requires MasksSettled(k0, k) && Shape(Append(k, p)) && !MayGrant(p)
    requires if p.handler then p.parent.Some? && p.parent.value < |k.nodes| && p.perm == k.nodes[p.parent.value].perm
             else p.perm == {}
    ensures MasksSettled(k0, Append(k, p))
  {
    var k' := Append(k, p);
    forall i | 0 <= i < |k'.nodes| ensures MaskOk(k', |k0.nodes|, i) {
      if i < |k.nodes| { assert MaskOk(k, |k0.nodes|, i) && ProcOk(k, i); }
    }
  }

  lemma SendMasks(k0: KState, k: KState, to: int, dword: nat, space: Context)
    requires MasksSettled(k0, k)
    ensures MasksSettled(k0, SendStep(k, to, dword, space).0)
  {
    SendKeepsShape(k, to, dword, space);
    assert ProcOk(k, k.cur);
    var pos := Find(k, to);
    if pos < |k.ring| {
      var t := k.ring[pos];
      assert ProcOk(k, t);
      var p := k.nodes[t];
      if SendStatus(p.sigq) == EXIT_SUCCESS {
        var q := Pushed(p.sigq, PackSignal(SenderPid(k), dword));
        SetNodeKeepsShape(k, t, p.(sigq := q));
        var k1 := SetNode(k, t, p.(sigq := q));
        KeptMasks(k0, k, k1);
        if q.callback.Some? { AppendedMask(k0, k1, HandlerFor(k1, t, space)); }
      }
    }
  }

  lemma ExitMasks(k0: KState, k: KState)
    requires MasksSettled(k0, k) && k.curNext.None? && !ExitStep(k).halted
    ensures MasksSettled(k0, ExitStep(k))
  {
    ExitKeepsShape(k);
    if !ExitRefused(k) {
      ExitRemovesCurrent(k);
      RemoveAtEntries(k.ring, Find(k, Cur(k).pid));
    }
    KeptMasks(k0, k, ExitStep(k));
  }

  lemma GrantMasks(k: KState, pid: int, perms: Mask)
    requires NobodyGrants(k)
    ensures GrantStep(k, pid, perms) == (k, -EPERM) && RevokeStep(k, pid, perms) == (k, -EPERM)
  {
  }

  lemma OtherMasks(k0: KState, k: KState, s: Step)
    requires MasksSettled(k0, k) && Enabled(k, s) && (s.Tick? || s.Hook? || s.Claim?)
    ensures MasksSettled(k0, Next(k, s))
  {
    NextKeepsShape(k, s);
    NextFramed(k, s);
    var k' := Next(k, s);
    forall i | 0 <= i < |k.nodes| ensures Kin(s, k.nodes[i], k'.nodes[i]) { }
    KeptMasks(k0, k, k');
  }

  lemma ReadMasks(k0: KState, k: KState)
    requires MasksSettled(k0, k)
    ensures MasksSettled(k0, ReadStep(k).0)
  {
    ReadKeepsShape(k);
    ReadNodes(k);
    KeptMasks(k0, k, ReadStep(k).0);
  }

  lemma NextMasks(k0: KState, k: KState, s: Step)
    requires MasksSettled(k0, k) && !Next(k, s).halted
    ensures MasksSettled(k0, Next(k, s))
  {
    if Enabled(k, s) {
      match s
      case Spawn(perm, space) =>
        if !MayNotSpawn(k, perm) {
          NextKeepsShape(k, s);
          AppendedMask(k0, k, Proc(k.nextPid, Ready, perm, space, [], false, EMPTY_QUEUE, None));
        }
      case Send(to, dword, space) => SendMasks(k0, k, to, dword, space);
      case Exit => ExitMasks(k0, k);
      case Grant(pid, perms) => GrantMasks(k, pid, perms);
      case Revoke(pid, perms) => GrantMasks(k, pid, perms);
      case Read => ReadMasks(k0, k);
      case _ => OtherMasks(k0, k, s);
    }
  }

  lemma {:induction false} RunMasks(k0: KState, k: KState, steps: seq<Step>)
    requires MasksSettled(k0, k)
    ensures var r := Run(k, steps); r.halted || MasksSettled(k0, r)
    decreases |steps|
  {
    if steps == [] {
    } else {
      var k' := Next(k, steps[0]);
      RoundRobin.NextShape(k, steps[0]);
      if k'.halted {
        RoundRobin.HaltedStays(k', steps[1..]);
      } else {
        NextMasks(k0, k, steps[0]);
        RunMasks(k0, k', steps[1..]);
      }
    }
  }

  /** Once nobody may grant permissions, nobody ever may again: no mask changes any more, every
    ordinary process created later has an empty mask, and every handler its target's. */
  lemma PermissionsSettle(k: KState, steps: seq<Step>)
    requires NobodyGrants(k)
    ensures var r := Run(k, steps); r.halted || MasksSettled(k, r)
  {
    RunMasks(k, k, steps);
  }

  // ----- granting and revoking --------------------------------------------------------------

  /** The process that perm_grant and perm_revoke choose for a PID: the first behind queue_base,
    and queue_base itself only when no other has the PID. */
  ghost predicate Chosen(k: KState, pid: int, i: nat)
    requires RingOk(k)
  {
    && i < |k.ring| && PidAt(k, i) == pid
    && forall j :: 0 < j < (if i == 0 then |k.ring| else i) ==> PidAt(k, j) != pid
  }

  lemma ChosenFound(k: KState, pid: int, i: nat)
    requires Shape(k) && Chosen(k, pid, i)
    ensures FindBaseLast(k, pid) == i
  {
  }

  ghost predicate NobodyHas(k: KState, pid: int)
    requires RingOk(k)
  {
    forall j :: 0 <= j < |k.ring| ==> PidAt(k, j) != pid
  }

  /** The states differ in the mask of process t only. */
  ghost predicate OnlyMask(k: KState, k': KState, t: nat, perm: Mask)
    requires t < |k.nodes|
  {
    k' == k.(nodes := k'.nodes) && |k'.nodes| == |k.nodes| && k'.nodes[t] == k.nodes[t].(perm := perm)
    && forall i :: 0 <= i < |k.nodes| && i != t ==> k'.nodes[i] == k.nodes[i]
  }

  /** A permitted grant adds exactly the permissions named to the process chosen, and a permitted
    revocation takes exactly those away. */
  lemma PermsMove(k: KState, pid: int, perms: Mask, i: nat)
    requires Shape(k) && PPERM_PERM in Cur(k).perm && Chosen(k, pid, i)
    ensures var (g, status) := GrantStep(k, pid, perms);
      status == EXIT_SUCCESS && OnlyMask(k, g, k.ring[i], k.nodes[k.ring[i]].perm + perms)
    ensures var (r, status) := RevokeStep(k, pid, perms);
      status == EXIT_SUCCESS && OnlyMask(k, r, k.ring[i], k.nodes[k.ring[i]].perm - perms)
  {
    ChosenFound(k, pid, i);
  }

  /** Without PPERM_PERM both fail with -EPERM.  For an unknown PID perm_revoke answers
    -EXIT_FAILURE, and perm_grant EXIT_FAILURE, without the sign.  Nothing changes. */
  lemma PermsRefused(k: KState, pid: int, perms: Mask)
    requires Shape(k) && (PPERM_PERM !in Cur(k).perm || NobodyHas(k, pid))
    ensures GrantStep(k, pid, perms) == (k, if PPERM_PERM !in Cur(k).perm then -EPERM else EXIT_FAILURE)
    ensures RevokeStep(k, pid, perms) == (k, if PPERM_PERM !in Cur(k).perm then -EPERM else -EXIT_FAILURE)
  {
  }

  lemma ChosenExists(k: KState, pid: int) returns (i: nat)
    requires Shape(k) && !NobodyHas(k, pid)
    ensures Chosen(k, pid, i)
  {
    i := FindBaseLast(k, pid);
  }

  /** Step n of the run is a grant of permission x to process i, or a revocation, by a process that
    may grant. */
  ghost predicate MovesAt(k: KState, steps: seq<Step>, n: nat, i: nat, x: nat, grant: bool)
    requires k.halted || Shape(k)
  {
    n < |steps| && Moves(Run(k, steps[..n]), steps[n], i, x, grant)
  }

  ghost predicate Moves(k: KState, s: Step, i: nat, x: nat, grant: bool)
    requires k.halted || Shape(k)
  {
    && Enabled(k, s) && PPERM_PERM in Cur(k).perm
    && (if grant then s.Grant? else s.Revoke?) && x in s.perms
    && exists j: nat :: Chosen(k, s.pid, j) && k.ring[j] == i
  }

  /** In one step a process gains a permission only by a grant, and loses one only by a revocation. */
  lemma NextMoves(k: KState, s: Step, i: nat, x: nat)
    requires Shape(k) && i < |k.nodes|
    ensures i < |Next(k, s).nodes|
    ensures x in Next(k, s).nodes[i].perm && x !in k.nodes[i].perm ==> Moves(k, s, i, x, true)
    ensures x !in Next(k, s).nodes[i].perm && x in k.nodes[i].perm ==> Moves(k, s, i, x, false)
  {
    if Enabled(k, s) {
      match s
      case Send(to, dword, space) => SendKeepsMasks(k, to, dword, space);
      case Read => ReadNodes(k);
      case Grant(pid, perms) => PermMoves(k, s, i, x);
      case Revoke(pid, perms) => PermMoves(k, s, i, x);
      case _ => NextFramed(k, s); assert Kin(s, k.nodes[i], Next(k, s).nodes[i]);
    }
  }

  lemma SendKeepsMasks(k: KState, to: int, dword: nat, space: Context)
    requires Shape(k)
    ensures var k' := SendStep(k, to, dword, space).0;
      |k.nodes| <= |k'.nodes| && forall i :: 0 <= i < |k.nodes| ==> k'.nodes[i].perm == k.nodes[i].perm
  {
    assert ProcOk(k, k.cur);
    if Accepts(k, to) { AcceptNodes(k, to, dword, space); }
  }

  lemma PermMoves(k: KState, s: Step, i: nat, x: nat)
    requires Shape(k) && Enabled(k, s) && (s.Grant? || s.Revoke?) && i < |k.nodes|
    ensures |Next(k, s).nodes| == |k.nodes|
    ensures x in Next(k, s).nodes[i].perm && x !in k.nodes[i].perm ==> Moves(k, s, i, x, true)
    ensures x !in Next(k, s).nodes[i].perm && x in k.nodes[i].perm ==> Moves(k, s, i, x, false)
  {
    if PPERM_PERM !in Cur(k).perm || NobodyHas(k, s.pid) {
      PermsRefused(k, s.pid, s.perms);
    } else {
      var j := ChosenExists(k, s.pid);
      PermsMove(k, s.pid, s.perms, j);
    }
  }

  lemma MovesLater(k: KState, steps: seq<Step>, n: nat, i: nat, x: nat, grant: bool)
    requires (k.halted || Shape(k)) && steps != [] && (Next(k, steps[0]).halted || Shape(Next(k, steps[0])))
    requires MovesAt(Next(k, steps[0]), steps[1..], n, i, x, grant)
    ensures MovesAt(k, steps, n + 1, i, x, grant)
  {
    assert steps[..n + 1][1..] == steps[1..][..n];
  }

  /** Over every run a process that has a permission which it did not have before was granted it,
    and one that has lost a permission had it revoked, by a process that held PPERM_PERM. */
  lemma {:induction false} PermissionsTraced(k: KState, steps: seq<Step>, i: nat, x: nat)
    requires (k.halted || Shape(k)) && i < |k.nodes|
    ensures i < |Run(k, steps).nodes|
    ensures x in Run(k, steps).nodes[i].perm && x !in k.nodes[i].perm ==>
      exists n :: MovesAt(k, steps, n, i, x, true)
    ensures x !in Run(k, steps).nodes[i].perm && x in k.nodes[i].perm ==>
      exists n :: MovesAt(k, steps, n, i, x, false)
    decreases |steps|
  {
    if steps == [] {
    } else {
      var k', rest, grant := Next(k, steps[0]), steps[1..], x !in k.nodes[i].perm;
      RoundRobin.NextShape(k, steps[0]);
      if !k.halted { NextMoves(k, steps[0], i, x); }
      PermissionsTraced(k', rest, i, x);
      if (x in Run(k', rest).nodes[i].perm) == grant {
        if (x in k'.nodes[i].perm) == grant {
          assert MovesAt(k, steps, 0, i, x, grant);
        } else {
          var n :| MovesAt(k', rest, n, i, x, grant);
          MovesLater(k, steps, n, i, x, grant);
        }
      }
    }
  }

  // ----- driver ownership -----------------------------------------------------------------

  /** The five refusals of drv_claim, in the order of its tests; a claim succeeds exactly when none
    applies, and nothing changes otherwise. */
  lemma ClaimAnswers(k: KState, driver: nat)
    requires Shape(k)
    ensures var (k', status) := ClaimStep(k, driver);
      var known := 1 <= driver <= DRIVERTYPE_COUNT;
      var vacant := known && !k.drivers[driver - 1] && !Owns(k, k.cur, driver);
      var room := |Cur(k).groups| != DRVMASTER_MAX_SLAVES - 1;
      && (status == EXIT_SUCCESS <==> vacant && room && PPERM_DRVCLAIM in Cur(k).perm)
      && (status == -EPERM <==> vacant && room && PPERM_DRVCLAIM !in Cur(k).perm)
      && (status == -ENOBUFS <==> vacant && !room)
      && (status == -EDRVCLAIMED <==> known && k.drivers[driver - 1])
      && (status == -EXIT_FAILURE <==> !known || (!k.drivers[driver - 1] && Owns(k, k.cur, driver)))
      && (status != EXIT_SUCCESS ==> k' == k)
      && (status == EXIT_SUCCESS ==> Claimed(k, k', driver))
  {
  }

  /** The driver is recorded as claimed and as current_task's, and nothing else has changed. */
  ghost predicate Claimed(k: KState, k': KState, driver: nat)
    requires k.cur < |k.nodes|
  {
    && k'.(nodes := k.nodes, drivers := k.drivers) == k
    && |k'.drivers| == |k.drivers| && |k'.nodes| == |k.nodes|
    && (forall d :: 0 <= d < |k.drivers| ==> k'.drivers[d] == (d + 1 == driver || k.drivers[d]))
    && (forall i :: 0 <= i < |k.nodes| ==> k'.nodes[i].(groups := k.nodes[i].groups) == k.nodes[i])
    && (forall i, d: nat :: 0 <= i < |k.nodes| ==>
          (Owns(k', i, d) <==> Owns(k, i, d) || (i == k.cur && d == driver)))
  }

  /** Step n of the run is the successful claim of the driver by process i, which had the permission. */
  ghost predicate ClaimsAt(k: KState, steps: seq<Step>, n: nat, i: nat, driver: nat)
    requires k.halted || Shape(k)
  {
    n < |steps| && Claims(Run(k, steps[..n]), steps[n], i, driver)
  }

  predicate Claims(k: KState, s: Step, i: nat, driver: nat) {
    && Enabled(k, s) && s == Claim(driver) && k.cur == i < |k.nodes| && PPERM_DRVCLAIM in k.nodes[i].perm
    && 1 <= driver <= |k.drivers| && !k.drivers[driver - 1]
  }

  lemma NewOwner(k: KState, s: Step, i: nat, driver: nat)
    requires Shape(k) && i < |Next(k, s).nodes| && Owns(Next(k, s), i, driver)
    ensures (i < |k.nodes| && Owns(k, i, driver)) || Claims(k, s, i, driver)
  {
    if Enabled(k, s) {
      match s
      case Claim(d) => ClaimAnswers(k, d);
      case Send(to, dword, space) => assert ProcOk(k, k.cur); if Accepts(k, to) { AcceptNodes(k, to, dword, space); }
      case Read => ReadNodes(k);
      case _ => NextFramed(k, s); if i < |k.nodes| { assert Kin(s, k.nodes[i], Next(k, s).nodes[i]); }
    }
  }

  /** Over every run, whoever owns a driver and did not before has claimed it, when it was vacant,
    with PPERM_DRVCLAIM in its mask.  From boot that is every owner. */
  lemma {:induction false} OwnersHadPermission(k: KState, steps: seq<Step>, i: nat, driver: nat) returns (n: nat)
    requires k.halted || Shape(k)
    requires i < |Run(k, steps).nodes| && Owns(Run(k, steps), i, driver)
    requires !(i < |k.nodes| && Owns(k, i, driver))
    ensures ClaimsAt(k, steps, n, i, driver)
    decreases |steps|
  {
    var k' := Next(k, steps[0]);
    RoundRobin.NextShape(k, steps[0]);
    if i < |k'.nodes| && Owns(k', i, driver) {
      NewOwner(k, steps[0], i, driver);
      n := 0;
    } else {
      n := OwnersHadPermission(k', steps[1..], i, driver);
      assert steps[..n + 1][1..] == steps[1..][..n];
      n := n + 1;
    }
  }

  /** At most one of all the processes there ever were owns each driver, and then the driver
    is marked as claimed. */
  ghost predicate Exclusive(k: KState) {
    && |k.drivers| == DRIVERTYPE_COUNT
    && (forall i, d: nat :: 0 <= i < |k.nodes| && Owns(k, i, d) ==> 1 <= d <= DRIVERTYPE_COUNT && k.drivers[d - 1])
    && (forall i, j, d: nat :: 0 <= i < |k.nodes| && 0 <= j < |k.nodes| && Owns(k, i, d) && Owns(k, j, d) ==> i == j)
  }

  /** Ownership is never lost or passed on. */
  ghost predicate OwnersKept(k: KState, k': KState) {
    |k.nodes| <= |k'.nodes| && forall i, d: nat :: 0 <= i < |k.nodes| && Owns(k, i, d) ==> Owns(k', i, d)
  }

  lemma SameGroups(k: KState, k': KState)
    requires Exclusive(k) && k'.drivers == k.drivers && |k.nodes| <= |k'.nodes|
    requires forall i :: 0 <= i < |k.nodes| ==> k'.nodes[i].groups == k.nodes[i].groups
    requires forall i :: |k.nodes| <= i < |k'.nodes| ==> k'.nodes[i].groups == []
    ensures Exclusive(k') && OwnersKept(k, k')
  {
    assert forall i, d: nat :: 0 <= i < |k'.nodes| && Owns(k', i, d) ==> i < |k.nodes| && Owns(k, i, d);
  }

  lemma ClaimExclusive(k: KState, driver: nat)
    requires Shape(k) && Exclusive(k)
    ensures Exclusive(ClaimStep(k, driver).0) && OwnersKept(k, ClaimStep(k, driver).0)
    ensures ClaimStep(k, driver).1 == EXIT_SUCCESS ==> Owns(ClaimStep(k, driver).0, k.cur, driver)
    ensures Cur(k).groups == [] && MayClaim(k, driver) ==> ClaimStep(k, driver).1 == EXIT_SUCCESS
  {
    var (k', status) := ClaimStep(k, driver);
    if status == EXIT_SUCCESS {
      assert forall i, d: nat :: 0 <= i < |k.nodes| ==>
        (Owns(k', i, d) <==> Owns(k, i, d) || (i == k.cur && d == driver));
    }
  }

  predicate MayClaim(k: KState, driver: nat)
    requires Shape(k)
  {
    && 1 <= driver <= DRIVERTYPE_COUNT
    && !k.drivers[driver - 1]
    && PPERM_DRVCLAIM in Cur(k).perm
  }

  lemma SendExclusive(k: KState, to: int, dword: nat, space: Context)
    requires Shape(k) && Exclusive(k)
    ensures Exclusive(SendStep(k, to, dword, space).0) && OwnersKept(k, SendStep(k, to, dword, space).0)
  {
    assert ProcOk(k, k.cur);
    if Find(k, to) < |k.ring| { assert ProcOk(k, k.ring[Find(k, to)]); }
    SameGroups(k, SendStep(k, to, dword, space).0);
  }

  lemma OtherExclusive(k: KState, s: Step)
    requires Shape(k) && Exclusive(k) && !s.Send? && !s.Read? && !s.Claim?
    ensures Exclusive(Next(k, s)) && OwnersKept(k, Next(k, s))
  {
    NextFramed(k, s);
    forall i | 0 <= i < |k.nodes| ensures Next(k, s).nodes[i].groups == k.nodes[i].groups {
      assert Kin(s, k.nodes[i], Next(k, s).nodes[i]);
    }
    SameGroups(k, Next(k, s));
  }

  lemma NextExclusive(k: KState, s: Step)
    requires Shape(k) && Exclusive(k)
    ensures Exclusive(Next(k, s)) && OwnersKept(k, Next(k, s))
  {
    if Enabled(k, s) {
      match s
      case Claim(driver) => ClaimExclusive(k, driver);
      case Send(to, dword, space) => SendExclusive(k, to, dword, space);
      case Read => ReadNodes(k); SameGroups(k, ReadStep(k).0);
      case _ => OtherExclusive(k, s);
    }
  }

  /** Over every run a driver has at most one owner, the first successful claimant, for good:
    its exit does not free the driver. */
  lemma {:induction false} RunExclusive(k: KState, steps: seq<Step>)
    requires k.halted || Shape(k)
    requires Exclusive(k)
    ensures Exclusive(Run(k, steps)) && OwnersKept(k, Run(k, steps))
    decreases |steps|
  {
    if steps == [] {
    } else {
      var k' := Next(k, steps[0]);
      RoundRobin.NextShape(k, steps[0]);
      if k.halted { assert OwnersKept(k, k'); } else { NextExclusive(k, steps[0]); }
      RunExclusive(k', steps[1..]);
      var r := Run(k', steps[1..]);
      forall i, d: nat | 0 <= i < |k.nodes| && Owns(k, i, d) ensures Owns(r, i, d) {
        assert Owns(k', i, d);
      }
    }
  }
}
