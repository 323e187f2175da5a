/** How long a keystroke is in flight: the pipeline's progress and round-robin scheduling
  together. */
module Latency {
  import opened ProcSpec
  import opened Ring
  import opened RoundRobin
  import opened Pipeline

  function Clocks(events: seq<Event>): nat {
    if events == [] then 0 else (if events[0].Clock? then 1 else 0) + Clocks(events[1..])
  }

  /** The handler that can bring the fetch closer is the one that executes. */
  ghost predicate Executing(s: Sys, phase: Phase) {
    s.k.curNext.None? && Moves(s, phase, s.k.cur)
  }

  /** The process that executes has executed an instruction since it was switched in. */
  function Ran(ran: bool, e: Event): bool {
    !e.Clock? && (ran || e.User?)
  }

  /** A handler that can bring the fetch closer executes at least one instruction in each of its
    turns. */
  ghost predicate TakesTurns(s: Sys, phase: Phase, ran: bool, events: seq<Event>)
    requires s.k.halted || Shape(s.k)
    decreases |events|
  {
    events == [] || s.k.halted ||
    (var e := events[0];
     && (e.Clock? && Executing(s, phase) ==> ran)
     && (SysNextShape(s, e); TakesTurns(SysNext(s, e), NextPhase(s, phase, e), Ran(ran, e), events[1..])))
  }

  /** The keystroke is not fetched in the run. */
  ghost predicate InFlight(s: Sys, phase: Phase, events: seq<Event>)
    requires s.k.halted || Shape(s.k)
    decreases |events|
  {
    phase != Idle &&
    (events == [] || s.k.halted ||
     (SysNextShape(s, events[0]); InFlight(SysNext(s, events[0]), NextPhase(s, phase, events[0]), events[1..])))
  }

  /** At most `total` process structures will ever have been allocated, and at most n of them can
    be in the ring at once. */
  predicate Room(k: KState, n: nat, total: nat) {
    |k.nodes| <= total && |k.ring| + total - |k.nodes| <= n
  }

  /** How many ticks can pass before x executes its next instruction. */
  function Wait(k: KState, x: nat, ran: bool, n: nat, total: nat): int
    requires Shape(k) && x in k.ring
  {
    if k.cur == x then (if ran then n + 1 else 0) else Distance(k, x) + total - |k.nodes|
  }

  lemma WaitBound(k: KState, x: nat, ran: bool, n: nat, total: nat)
    requires Shape(k) && x in k.ring && Room(k, n, total)
    ensures 0 <= Wait(k, x, ran, n, total) <= n + 1
    ensures k.cur != x ==> Wait(k, x, ran, n, total) <= n
  {
  }

  /** The handler that can move stays the same until it moves. */
  lemma MoverStays(s: Sys, phase: Phase, x: nat, e: Event)
    requires PipelineOk(s, phase) && Moves(s, phase, x) && EventGuard(s, e) && NextPhase(s, phase, e) != Idle
    requires Work(SysNext(s, e), NextPhase(s, phase, e)) == Work(s, phase)
    ensures Moves(SysNext(s, e), NextPhase(s, phase, e), x)
  {
  }

  /** New processes join the ring one by one. */
  lemma EventGrows(s: Sys, e: Event)
    requires Shape(s.k) && EventGuard(s, e)
    ensures var k' := SysNext(s, e).k;
      0 <= |k'.nodes| - |s.k.nodes| && |k'.ring| - |s.k.ring| <= |k'.nodes| - |s.k.nodes|
  {
    KernelStepTracks(s, e);
    if KernelStep(s, e).Some? && !KernelStep(s, e).value.Exit? { NextExtends(s.k, KernelStep(s, e).value); }
  }

  lemma {:induction false} RunGrows(s: Sys, phase: Phase, events: seq<Event>)
    requires PipelineOk(s, phase) && AllGuarded(s, events)
    ensures |s.k.nodes| <= |SysRun(s, events).k.nodes|
    decreases |events|
  {
    if events == [] {
    } else {
      EventGrows(s, events[0]);
      EventOk(s, phase, events[0]);
      RunGrows(SysNext(s, events[0]), NextPhase(s, phase, events[0]), events[1..]);
    }
  }

  /** An event in which x does not execute an instruction: the wait shrinks with every tick. */
  lemma WaitStep(s: Sys, phase: Phase, x: nat, ran: bool, e: Event, n: nat, total: nat)
    requires PipelineOk(s, phase) && phase != Idle && Moves(s, phase, x) && EventGuard(s, e)
    requires x in s.k.ring && !(e.User? && s.k.cur == x) && (e.Clock? && s.k.cur == x ==> ran)
    requires Room(s.k, n, total) && |SysNext(s, e).k.nodes| <= total
    ensures var k' := SysNext(s, e).k;
      && Shape(k') && x in k'.ring
      && Wait(k', x, Ran(ran, e), n, total) + (if e.Clock? then 1 else 0) <= Wait(s.k, x, ran, n, total)
  {
    KernelOk(s, e);
    MoverRuns(s, phase, x);
    if s.k.cur == x {
      if e.Clock? { OwnTick(s, x, e.saved, n, total); }
    } else {
      OthersEvent(s, x, e);
    }
  }

  lemma OwnTick(s: Sys, x: nat, saved: Context, n: nat, total: nat)
    requires Shape(s.k) && s.k.cur == x && x in s.k.ring && Room(s.k, n, total)
    ensures var k' := TickStep(s.k, saved);
      Shape(k') && x in k'.ring && Wait(k', x, false, n, total) <= n
  {
    TickKeepsShape(s.k, saved);
    WaitBound(TickStep(s.k, saved), x, false, n, total);
  }

  lemma OthersStep(k: KState, x: nat, step: Step)
    requires Waits(k, x) && MayStep(k, step)
    ensures var k' := Next(k, step);
      && Shape(k') && x in k'.ring && |k.nodes| <= |k'.nodes|
      && (k'.cur == x ==> step.Tick?)
      && (k'.cur != x ==> Distance(k', x) + (if step.Tick? then 1 else 0) <= Distance(k, x) + |k'.nodes| - |k.nodes|)
  {
    MayStepRuns(k, step);
    if Runs(k, step, x) {
      TickDistance(k, step.saved, x);
      TickKeepsShape(k, step.saved);
    } else {
      NextProgress(k, step, x);
    }
  }

  lemma OthersEvent(s: Sys, x: nat, e: Event)
    requires Waits(s.k, x) && EventGuard(s, e)
    ensures var k' := SysNext(s, e).k;
      && Shape(k') && x in k'.ring && |s.k.nodes| <= |k'.nodes|
      && (k'.cur == x ==> e.Clock?)
      && (k'.cur != x ==> Distance(k', x) + (if e.Clock? then 1 else 0) <= Distance(s.k, x) + |k'.nodes| - |s.k.nodes|)
  {
    KernelStepTracks(s, e);
    if KernelStep(s, e).Some? { OthersStep(s.k, x, KernelStep(s, e).value); }
  }

  /** At most this many ticks can pass while the keystroke stays in flight: one lap of the ring for
    each instruction that is left. */
  ghost function Budget(s: Sys, phase: Phase, x: nat, ran: bool, n: nat, total: nat): int
    requires Shape(s.k) && x in s.k.ring
  {
    (Work(s, phase) - 1) * (n + 1) + Wait(s.k, x, ran, n, total)
  }

  lemma BudgetStep(s: Sys, phase: Phase, x: nat, ran: bool, e: Event, n: nat, total: nat) returns (y: nat)
    requires PipelineOk(s, phase) && phase != Idle && Moves(s, phase, x) && x in s.k.ring && EventGuard(s, e)
    requires (e.Clock? && Executing(s, phase) ==> ran) && NextPhase(s, phase, e) != Idle
    requires Room(s.k, n, total) && |SysNext(s, e).k.nodes| <= total
    ensures var (s', phase') := (SysNext(s, e), NextPhase(s, phase, e));
      && Shape(s'.k) && Room(s'.k, n, total) && Moves(s', phase', y) && y in s'.k.ring
      && Budget(s', phase', y, Ran(ran, e), n, total) + (if e.Clock? then 1 else 0)
           <= Budget(s, phase, x, ran, n, total)
  {
    var s', phase' := SysNext(s, e), NextPhase(s, phase, e);
    EventOk(s, phase, e);
    EventGrows(s, e);
    Shrinks(s, phase, x, e);
    if Work(s', phase') == Work(s, phase) {
      y := x;
      MoverStays(s, phase, x, e);
      WaitStep(s, phase, x, ran, e, n, total);
      SameWork(s, phase, x, ran, s', phase', Ran(ran, e), n, total, if e.Clock? then 1 else 0);
    } else {
      assert !e.Clock?;
      y := SomebodyMoves(s', phase');
      WorkDone(s, phase, x, ran, s', phase', y, Ran(ran, e), n, total);
    }
  }

  /** With the same work left it falls as the wait does. */
  lemma SameWork(s: Sys, phase: Phase, x: nat, ran: bool, s': Sys, phase': Phase, ran': bool,
                 n: nat, total: nat, less: int)
    requires Shape(s.k) && x in s.k.ring && Shape(s'.k) && x in s'.k.ring
    requires Work(s', phase') == Work(s, phase)
    requires Wait(s'.k, x, ran', n, total) + less <= Wait(s.k, x, ran, n, total)
    ensures Budget(s', phase', x, ran', n, total) + less <= Budget(s, phase, x, ran, n, total)
  {
  }

  /** With less work left the budget falls, whoever has to wait now. */
  lemma WorkDone(s: Sys, phase: Phase, x: nat, ran: bool, s': Sys, phase': Phase, y: nat, ran': bool,
                 n: nat, total: nat)
    requires Shape(s.k) && x in s.k.ring && Room(s.k, n, total)
    requires Shape(s'.k) && y in s'.k.ring && Room(s'.k, n, total)
    requires Work(s', phase') < Work(s, phase)
    ensures Budget(s', phase', y, ran', n, total) <= Budget(s, phase, x, ran, n, total)
  {
    WaitBound(s'.k, y, ran', n, total);
    WaitBound(s.k, x, ran, n, total);
    OneLess(Work(s, phase), Work(s', phase'), n);
  }

  /** A unit of work is done by an instruction of x, not by a tick. */
  lemma Shrinks(s: Sys, phase: Phase, x: nat, e: Event)
    requires PipelineOk(s, phase) && phase != Idle && Moves(s, phase, x) && x in s.k.ring && EventGuard(s, e)
    ensures Work(SysNext(s, e), NextPhase(s, phase, e)) <= Work(s, phase)
    ensures Work(SysNext(s, e), NextPhase(s, phase, e)) == Work(s, phase) ==> !(e.User? && s.k.cur == x)
    ensures e.Clock? ==> Work(SysNext(s, e), NextPhase(s, phase, e)) == Work(s, phase)
    ensures s.k.cur == x ==> Executing(s, phase)
  {
    WorkShrinks(s, phase, e);
  }

  lemma OneLess(w: nat, w': nat, n: nat)
    requires w' < w
    ensures w' * (n + 1) <= (w - 1) * (n + 1)
    ensures (w' - 1) * (n + 1) + n + 1 == w' * (n + 1)
  {
  }

  lemma {:induction false} TicksInFlight(s: Sys, phase: Phase, x: nat, ran: bool, events: seq<Event>,
                                         n: nat, total: nat)
    requires PipelineOk(s, phase) && Moves(s, phase, x) && x in s.k.ring && Room(s.k, n, total)
    requires AllGuarded(s, events) && TakesTurns(s, phase, ran, events) && InFlight(s, phase, events)
    requires |SysRun(s, events).k.nodes| <= total
    ensures Clocks(events) <= Budget(s, phase, x, ran, n, total)
    decreases |events|
  {
    if events == [] {
      WaitBound(s.k, x, ran, n, total);
      WorkLeft(s, phase, n);
    } else {
      var e := events[0];
      EventOk(s, phase, e);
      RunGrows(SysNext(s, e), NextPhase(s, phase, e), events[1..]);
      var y := BudgetStep(s, phase, x, ran, e, n, total);
      TicksInFlight(SysNext(s, e), NextPhase(s, phase, e), y, Ran(ran, e), events[1..], n, total);
    }
  }

  lemma WorkLeft(s: Sys, phase: Phase, n: nat)
    requires phase != Idle
    ensures 1 <= Work(s, phase) <= 6 && 0 <= (Work(s, phase) - 1) * (n + 1) <= 5 * (n + 1)
  {
  }

  lemma Lasts(s: Sys, phase: Phase, e: Event)
    requires PipelineOk(s, phase)
    ensures phase != Idle ==> SysNext(s, e).accepted == s.accepted
    ensures phase == Idle ==> s.fetched == s.accepted
  {
  }

  lemma OneMore(s: Sys, events: seq<Event>, i: nat)
    requires (s.k.halted || Shape(s.k)) && i + 1 <= |events|
    ensures var s' := SysNext(s, events[0]);
      (s'.k.halted || Shape(s'.k)) && SysRun(s, events[..i + 1]) == SysRun(s', events[1..][..i])
  {
    SysNextShape(s, events[0]);
    assert events[..i + 1][1..] == events[1..][..i];
  }

  /** When the keystroke leaves the pipeline, the shell has fetched everything accepted. */
  lemma {:induction false} Lands(s: Sys, phase: Phase, events: seq<Event>) returns (i: nat)
    requires PipelineOk(s, phase) && AllGuarded(s, events) && !InFlight(s, phase, events)
    ensures i <= |events| && SysRun(s, events[..i]).fetched == s.accepted
    decreases |events|
  {
    if phase == Idle {
      i := 0;
      Lasts(s, phase, Clock(Context(0, 0)));
    } else {
      Lasts(s, phase, events[0]);
      EventOk(s, phase, events[0]);
      i := Lands(SysNext(s, events[0]), NextPhase(s, phase, events[0]), events[1..]);
      OneMore(s, events, i);
      i := i + 1;
    }
  }

  /** The processes in the ring at the start, and those created in the run. */
  ghost function Crowd(s: Sys, events: seq<Event>): int
    requires s.k.halted || Shape(s.k)
  {
    |s.k.ring| + |SysRun(s, events).k.nodes| - |s.k.nodes|
  }

  lemma NotForEver(s: Sys, phase: Phase, ran: bool, events: seq<Event>)
    requires PipelineOk(s, phase) && AllGuarded(s, events) && TakesTurns(s, phase, ran, events)
    requires InFlight(s, phase, events)
    ensures Clocks(events) <= 6 * (Crowd(s, events) + 1)
  {
    RunGrows(s, phase, events);
    var n, total := Crowd(s, events), |SysRun(s, events).k.nodes|;
    var x := SomebodyMoves(s, phase);
    TicksInFlight(s, phase, x, ran, events, n, total);
    WaitBound(s.k, x, ran, n, total);
    WorkLeft(s, phase, n);
  }

  /** An accepted keystroke is fetched within six laps: in a guarded run in which handlers take
    their turns, with more than 6 * (n + 1) ticks, where n counts the processes in the ring at the
    start and those created in the run. */
  lemma FetchedInTime(s: Sys, phase: Phase, ran: bool, events: seq<Event>) returns (i: nat)
    requires PipelineOk(s, phase) && AllGuarded(s, events) && TakesTurns(s, phase, ran, events)
    requires Clocks(events) > 6 * (Crowd(s, events) + 1)
    ensures i <= |events| && SysRun(s, events[..i]).fetched == s.accepted
  {
    if InFlight(s, phase, events) { NotForEver(s, phase, ran, events); }
    i := Lands(s, phase, events);
  }
}
