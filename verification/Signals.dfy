/** Signals are delivered exactly once, over every run in which each signal is read by the
  process it is meant for. */
module Signals {
  import opened Common
  import opened ProcSpec
  import opened Ring
  import RoundRobin

  // ----- signal words ---------------------------------------------------------------------

  /** The extraction macros of psignal.h invert the packing of psignal_send, and psignal_read
    lets a word through exactly when its sender's PID is not negative. */
  lemma PackRoundTrip(sender: int, dword: nat)
    requires -0x8000 <= sender <= PID_MAX && dword < TWO_TO_THE_32
    ensures ExtractPayload(PackSignal(sender, dword)) == dword
    ensures TopBitsUntouched(PackSignal(sender, dword)) <==> 0 <= sender
    ensures 0 <= sender ==> ExtractSource(PackSignal(sender, dword)) == sender
  {
    var s := sender % TWO_TO_THE_32;
    assert s == if sender < 0 then sender + TWO_TO_THE_32 else sender;
    assert PackSignal(sender, dword) == s * TWO_TO_THE_32 + dword;
    assert (s * TWO_TO_THE_32 + dword) / TWO_TO_THE_32 == s;
    assert (s * TWO_TO_THE_32 + dword) % TWO_TO_THE_32 == dword;
  }

  /** What psignal_read returns for a stored word. */
  function Visible(word: nat): nat { if TopBitsUntouched(word) then word else 0 }

  ghost predicate PidsPositive(k: KState) {
    forall i :: 0 <= i < |k.nodes| ==> 1 <= k.nodes[i].pid <= PID_MAX
  }

  /** In an ordered ring no process, live or dead, ever has a negative PID. */
  lemma NextPidsPositive(k: KState, s: Step)
    requires Ordered(k) && PidsPositive(k)
    ensures PidsPositive(Next(k, s))
  {
    assert 1 <= PidAt(k, 0) < k.nextPid;
    if !s.Exit? { NextExtends(k, s); }
  }

  /** So whatever is sent arrives with its sender and payload intact. */
  lemma SentIntact(k: KState, dword: nat)
    requires Ordered(k) && PidsPositive(k) && dword < TWO_TO_THE_32
    requires Cur(k).handler ==> Cur(k).parent.Some? && Cur(k).parent.value < |k.nodes|
    ensures var word := PackSignal(SenderPid(k), dword);
      && Visible(word) == word && ExtractPayload(word) == dword && ExtractSource(word) == SenderPid(k)
  {
    PackRoundTrip(SenderPid(k), dword);
  }

  // ----- handlers -------------------------------------------------------------------------

  /** Handlers never handle signals themselves: nothing that is sent to one is accepted, so no
    handler is ever a parent, and a signal is always attributed to a process that is not a
    handler. */
  lemma HandlerDepthOne(k: KState, to: int, dword: nat, space: Context)
    requires Shape(k)
    ensures var pos := Find(k, to);
      pos < |k.ring| && k.nodes[k.ring[pos]].handler ==>
        SendStep(k, to, dword, space).0 == k && SendStep(k, to, dword, space).1 in {-EBUSY, -EREJECTED}
    ensures Cur(k).handler ==>
      Cur(k).parent.Some? && Cur(k).parent.value < |k.nodes| && !k.nodes[Cur(k).parent.value].handler
  {
    assert ProcOk(k, k.cur);
    var pos := Find(k, to);
    if pos < |k.ring| { assert ProcOk(k, k.ring[pos]); }
  }

  // ----- what a sender is told ----------------------------------------------------------------

  /** A send fails exactly when no live process has the PID, and a refused one changes nothing. */
  lemma SendAnswers(k: KState, to: int, dword: nat, space: Context)
    requires Shape(k)
    ensures var (k', status) := SendStep(k, to, dword, space);
      && (status == -EXIT_FAILURE <==> forall i :: 0 <= i < |k.ring| ==> PidAt(k, i) != to)
      && (status == EXIT_SUCCESS <==> Accepts(k, to))
      && (status != EXIT_SUCCESS ==> k' == k)
  {
    assert ProcOk(k, k.cur);
    if Find(k, to) < |k.ring| { assert PidAt(k, Find(k, to)) == to; }
  }

  /** Else the first process with the PID decides: a full queue rejects, a locked one is busy, and
    any other takes the signal. */
  lemma ReceiverAnswers(k: KState, to: int, dword: nat, space: Context, i: nat)
    requires Shape(k) && i < |k.ring| && PidAt(k, i) == to && forall j :: 0 <= j < i ==> PidAt(k, j) != to
    ensures var q := k.nodes[k.ring[i]].sigq;
      SendStep(k, to, dword, space).1 ==
        if q.nextIndex >= PSIGNAL_QUEUE_SIZE then -EREJECTED else if q.rwlock then -EBUSY else EXIT_SUCCESS
    ensures Accepts(k, to) ==> Target(k, to) == k.ring[i]
  {
    assert ProcOk(k, k.cur) && Find(k, to) == i;
  }

  /** A signal is attributed to current_task, or to the process whose handler that is, and never to
    a handler. */
  lemma AttributedTo(k: KState) returns (q: nat)
    requires Shape(k)
    ensures Cur(k).handler ==> Cur(k).parent.Some? && Cur(k).parent.value < |k.nodes|
    ensures if Cur(k).handler then Cur(k).parent == Some(q) else q == k.cur
    ensures q < |k.nodes| && !k.nodes[q].handler && SenderPid(k) == k.nodes[q].pid
  {
    assert ProcOk(k, k.cur);
    q := if Cur(k).handler then Cur(k).parent.value else k.cur;
  }

  /** psignal_hook changes the callback of current_task only.  From then on a signal that it accepts
    starts a handler with that callback, or none if the callback is NULL. */
  lemma HookTakesEffect(k: KState, callback: Option<int>, to: int, dword: nat, space: Context)
    requires Shape(k)
    ensures var (k1, n) := (HookStep(k, callback), |k.nodes|);
      && Shape(k1) && k1.(nodes := k.nodes) == k && |k1.nodes| == n
      && (forall i :: 0 <= i < n && i != k.cur ==> k1.nodes[i] == k.nodes[i])
      && Cur(k1).(sigq := Cur(k).sigq) == Cur(k)
      && Cur(k1).sigq.(callback := Cur(k).sigq.callback) == Cur(k).sigq
      && (Accepts(k1, to) && Target(k1, to) == k.cur ==>
            var k2 := SendStep(k1, to, dword, space).0;
            if callback.None? then |k2.nodes| == n
            else |k2.nodes| == n + 1 && k2.nodes[n].handler && k2.nodes[n].sigq.callback == callback)
  {
    HookKeepsShape(k, callback);
    var k1 := HookStep(k, callback);
    if Accepts(k1, to) { AcceptNodes(k1, to, dword, space); }
  }

  // ----- what was sent and what was read --------------------------------------------------

  /** A signal as its sender saw it: the process that receives it, the PID it is attributed to,
    and the argument of psignal_send. */
  datatype Signal = Signal(to: nat, sender: int, dword: nat)

  /** What a read of the signal returns. */
  function WordOf(s: Signal): nat { Visible(PackSignal(s.sender, s.dword)) }

  /** The receiving processes and the words of some signals. */
  function Words(sent: seq<Signal>): (r: seq<(nat, nat)>)
    ensures |r| == |sent|
  {
    seq(|sent|, i requires 0 <= i < |sent| => (sent[i].to, WordOf(sent[i])))
  }

  /** A kernel state together with the history of its signals: those accepted, and, for each one
    read, the process whose queue was read and the word. */
  datatype Traced = Traced(k: KState, accepted: seq<Signal>, delivered: seq<(nat, nat)>)

  function TracedSend(t: Traced, to: int, dword: nat, space: Context): Traced
    requires Shape(t.k)
  {
    var k' := SendStep(t.k, to, dword, space).0;
    if !Accepts(t.k, to) then t.(k := k')
    else
      assert ProcOk(t.k, t.k.cur);
      t.(k := k', accepted := t.accepted + [Signal(Target(t.k, to), SenderPid(t.k), dword)])
  }

  function TracedRead(t: Traced): Traced
    requires Shape(t.k)
  {
    var (k', result) := ReadStep(t.k);
    if Cur(t.k).sigq.nextIndex == 0 || result.OutOfBounds? then t.(k := k')
    else t.(k := k', delivered := t.delivered + [(ReadOwner(t.k), result.word)])
  }

  function TracedNext(t: Traced, s: Step): Traced
    requires t.k.halted || Shape(t.k)
  {
    if !Enabled(t.k, s) then t
    else match s
      case Send(to, dword, space) => TracedSend(t, to, dword, space)
      case Read => TracedRead(t)
      case _ => t.(k := Next(t.k, s))
  }

  lemma TracedNextTracks(t: Traced, s: Step)
    requires t.k.halted || Shape(t.k)
    ensures TracedNext(t, s).k == Next(t.k, s)
  {
  }

  /** A handler reads only while its parent has a signal pending.  Any other process may read its
    own queue at any time. */
  predicate MayRead(k: KState)
    requires Shape(k)
  {
    Cur(k).handler ==> ReadOwner(k) < |k.nodes| && k.nodes[ReadOwner(k)].sigq.nextIndex != 0
  }

  predicate Disciplined(k: KState, s: Step)
    requires k.halted || Shape(k)
  {
    s.Read? && Enabled(k, s) ==> MayRead(k)
  }

  /** The words of one process, in order. */
  function For(trace: seq<(nat, nat)>, q: nat): seq<nat> {
    if trace == [] then []
    else
      var last := trace[|trace| - 1];
      For(trace[..|trace| - 1], q) + (if last.0 == q then [last.1] else [])
  }

  function Pending(q: SignalQueue): seq<nat>
    requires |q.queue| == PSIGNAL_QUEUE_SIZE
  {
    if q.nextIndex == 1 then [Visible(q.queue[0])] else []
  }

  /** Process q, which is not a handler, has had every accepted signal delivered except the
    pending one; its lock is held exactly while there is one. */
  ghost predicate QueueOk(t: Traced, q: nat)
    requires q < |t.k.nodes|
  {
    var sigq := t.k.nodes[q].sigq;
    && |sigq.queue| == PSIGNAL_QUEUE_SIZE
    && sigq.nextIndex <= 1
    && (sigq.rwlock <==> sigq.nextIndex == 1)
    && For(Words(t.accepted), q) == For(t.delivered, q) + Pending(sigq)
  }

  /** A handler's copy of the queue holds one entry for ever. */
  ghost predicate NodeOk(t: Traced, i: nat)
    requires i < |t.k.nodes|
  {
    if t.k.nodes[i].handler then t.k.nodes[i].sigq.nextIndex == 1 else QueueOk(t, i)
  }

  /** Every signal accepted has been delivered to its receiver once and in order, or is pending. */
  ghost predicate ExactlyOnce(t: Traced) {
    && Shape(t.k)
    && (forall i :: 0 <= i < |t.accepted| ==> t.accepted[i].to < |t.k.nodes|)
    && (forall i :: 0 <= i < |t.delivered| ==> t.delivered[i].0 < |t.k.nodes|)
    && (forall i :: 0 <= i < |t.k.nodes| ==> NodeOk(t, i))
  }

  lemma {:induction false} ForUnknown(trace: seq<(nat, nat)>, q: nat)
    requires forall i :: 0 <= i < |trace| ==> trace[i].0 != q
    ensures For(trace, q) == []
  {
    if trace == [] {
    } else {
      ForUnknown(trace[..|trace| - 1], q);
    }
  }

  lemma ForAppend(trace: seq<(nat, nat)>, e: (nat, nat), q: nat)
    ensures For(trace + [e], q) == For(trace, q) + (if e.0 == q then [e.1] else [])
  {
    assert (trace + [e])[..|trace|] == trace;
  }

  /** Steps that neither send nor read: queues stay as they are, new queues are empty. */
  lemma QuietStep(t: Traced, s: Step, k': KState)
    requires ExactlyOnce(t) && Shape(k') && Framed(s, t.k, k')
    ensures ExactlyOnce(t.(k := k'))
  {
    var t' := t.(k := k');
    forall i | 0 <= i < |k'.nodes| ensures NodeOk(t', i) {
      if i < |t.k.nodes| {
        assert NodeOk(t, i) && Kin(s, t.k.nodes[i], k'.nodes[i]);
      } else {
        ForUnknown(Words(t.accepted), i);
        ForUnknown(t.delivered, i);
      }
    }
  }

  lemma SendOnce(t: Traced, to: int, dword: nat, space: Context)
    requires ExactlyOnce(t)
    ensures ExactlyOnce(TracedSend(t, to, dword, space))
  {
    if Accepts(t.k, to) { AcceptOnce(t, to, dword, space); } else { SendAnswers(t.k, to, dword, space); }
  }

  lemma AcceptTrace(t: Traced, to: int, dword: nat, space: Context, i: nat)
    requires Shape(t.k) && Accepts(t.k, to)
    ensures Cur(t.k).handler ==> Cur(t.k).parent.Some? && Cur(t.k).parent.value < |t.k.nodes|
    ensures For(Words(TracedSend(t, to, dword, space).accepted), i) == For(Words(t.accepted), i) +
      if Target(t.k, to) == i then [Visible(PackSignal(SenderPid(t.k), dword))] else []
  {
    assert ProcOk(t.k, t.k.cur);
    var q := Target(t.k, to);
    var signal := Signal(q, SenderPid(t.k), dword);
    assert Words(t.accepted + [signal]) == Words(t.accepted) + [(q, WordOf(signal))];
    ForAppend(Words(t.accepted), (q, WordOf(signal)), i);
  }

  lemma AcceptNode(t: Traced, to: int, dword: nat, space: Context, i: nat)
    requires ExactlyOnce(t) && Accepts(t.k, to)
    requires i < |TracedSend(t, to, dword, space).k.nodes|
    ensures NodeOk(TracedSend(t, to, dword, space), i)
  {
    AcceptNodes(t.k, to, dword, space);
    var q := Target(t.k, to);
    assert NodeOk(t, q) && ProcOk(t.k, q);
    AcceptTrace(t, to, dword, space, i);
    if i < |t.k.nodes| { assert NodeOk(t, i) && ProcOk(t.k, i); }
  }

  lemma AcceptOnce(t: Traced, to: int, dword: nat, space: Context)
    requires ExactlyOnce(t) && Accepts(t.k, to)
    ensures ExactlyOnce(TracedSend(t, to, dword, space))
  {
    SendKeepsShape(t.k, to, dword, space);
    AcceptNodes(t.k, to, dword, space);
    var q := Target(t.k, to);
    assert NodeOk(t, q) && ProcOk(t.k, q);
    var t' := TracedSend(t, to, dword, space);
    forall i | 0 <= i < |t'.k.nodes| ensures NodeOk(t', i) {
      AcceptNode(t, to, dword, space, i);
    }
  }

  /** A read that is allowed finds the pending word, or a process finds nothing pending. */
  lemma ReadFinds(t: Traced)
    requires ExactlyOnce(t) && MayRead(t.k)
    ensures var k, owner := t.k, ReadOwner(t.k);
      && owner < |k.nodes| && !k.nodes[owner].handler && |k.nodes[owner].sigq.queue| == PSIGNAL_QUEUE_SIZE
      && Cur(k).sigq.nextIndex == k.nodes[owner].sigq.nextIndex
      && ReadStep(k).1 == Word(if Cur(k).sigq.nextIndex == 0 then 0 else Visible(k.nodes[owner].sigq.queue[0]))
  {
    var k, owner := t.k, ReadOwner(t.k);
    assert ProcOk(k, k.cur) && NodeOk(t, k.cur);
    assert ProcOk(k, owner) && NodeOk(t, owner);
  }

  lemma OwnerRead(t: Traced)
    requires ExactlyOnce(t) && MayRead(t.k) && Cur(t.k).sigq.nextIndex != 0
    requires ReadOwner(t.k) < |TracedRead(t).k.nodes|
    ensures QueueOk(TracedRead(t), ReadOwner(t.k))
  {
    ReadFinds(t);
    ReadNodes(t.k);
    var owner, t' := ReadOwner(t.k), TracedRead(t);
    assert NodeOk(t, owner);
    ForAppend(t.delivered, (owner, ReadStep(t.k).1.word), owner);
    assert For(t'.delivered, owner) + [] == For(Words(t.accepted), owner);
  }

  lemma ReadNode(t: Traced, i: nat)
    requires ExactlyOnce(t) && MayRead(t.k)
    requires i < |t.k.nodes| && |TracedRead(t).k.nodes| == |t.k.nodes|
    ensures NodeOk(TracedRead(t), i)
  {
    ReadFinds(t);
    ReadNodes(t.k);
    assert NodeOk(t, i);
    if Cur(t.k).sigq.nextIndex != 0 {
      if i == ReadOwner(t.k) {
        OwnerRead(t);
      } else {
        ForAppend(t.delivered, (ReadOwner(t.k), ReadStep(t.k).1.word), i);
      }
    }
  }

  lemma ReadOnce(t: Traced)
    requires ExactlyOnce(t) && MayRead(t.k)
    ensures ExactlyOnce(TracedRead(t))
  {
    ReadKeepsShape(t.k);
    ReadFinds(t);
    ReadNodes(t.k);
    forall i | 0 <= i < |t.k.nodes| ensures NodeOk(TracedRead(t), i) {
      ReadNode(t, i);
    }
  }

  /** Any other read leaves the parent's queue with an index of 255. */
  lemma ReadBreaks(t: Traced)
    requires ExactlyOnce(t) && !MayRead(t.k)
    ensures !ExactlyOnce(TracedRead(t))
  {
    var k, owner := t.k, ReadOwner(t.k);
    assert ProcOk(k, k.cur) && NodeOk(t, k.cur) && ProcOk(k, owner) && NodeOk(t, owner);
    ReadNodes(k);
    assert !NodeOk(TracedRead(t), owner);
  }

  lemma OtherOnce(t: Traced, s: Step)
    requires ExactlyOnce(t) && Enabled(t.k, s) && !s.Send? && !s.Read? && !Next(t.k, s).halted
    ensures ExactlyOnce(t.(k := Next(t.k, s)))
  {
    NextKeepsShape(t.k, s);
    NextFramed(t.k, s);
    QuietStep(t, s, Next(t.k, s));
  }

  /** One step keeps delivery exactly-once if and only if it is disciplined. */
  lemma NextOnce(t: Traced, s: Step)
    requires ExactlyOnce(t)
    ensures TracedNext(t, s).k.halted || (ExactlyOnce(TracedNext(t, s)) <==> Disciplined(t.k, s))
  {
    if Enabled(t.k, s) {
      match s
      case Send(to, dword, space) => SendOnce(t, to, dword, space);
      case Read => if MayRead(t.k) { ReadOnce(t); } else { ReadBreaks(t); }
      case _ => if !Next(t.k, s).halted { OtherOnce(t, s); }
    }
  }

  // ----- runs -----------------------------------------------------------------------------

  lemma TracedNextShape(t: Traced, s: Step)
    requires t.k.halted || Shape(t.k)
    ensures TracedNext(t, s).k.halted || Shape(TracedNext(t, s).k)
  {
    TracedNextTracks(t, s);
    RoundRobin.NextShape(t.k, s);
  }

  ghost function TracedRun(t: Traced, steps: seq<Step>): (r: Traced)
    requires t.k.halted || Shape(t.k)
    decreases |steps|
  {
    if steps == [] then t else (TracedNextShape(t, steps[0]); TracedRun(TracedNext(t, steps[0]), steps[1..]))
  }

  ghost predicate AlwaysDisciplined(k: KState, steps: seq<Step>)
    requires k.halted || Shape(k)
    decreases |steps|
  {
    steps == [] ||
    (Disciplined(k, steps[0]) &&
     (RoundRobin.NextShape(k, steps[0]); AlwaysDisciplined(Next(k, steps[0]), steps[1..])))
  }

  /** Delivery is exactly-once in every state of the run that has not halted. */
  ghost predicate AlwaysOnce(t: Traced, steps: seq<Step>)
    requires t.k.halted || Shape(t.k)
    decreases |steps|
  {
    && (t.k.halted || ExactlyOnce(t))
    && (steps == [] || (TracedNextShape(t, steps[0]); AlwaysOnce(TracedNext(t, steps[0]), steps[1..])))
  }

  /** Over every run delivery is exactly-once all along if and only if no handler reads while its
    parent has nothing pending. */
  lemma {:induction false} RunOnce(t: Traced, steps: seq<Step>)
    requires t.k.halted || ExactlyOnce(t)
    ensures AlwaysOnce(t, steps) <==> AlwaysDisciplined(t.k, steps)
    decreases |steps|
  {
    if steps == [] {
    } else {
      var t' := TracedNext(t, steps[0]);
      TracedNextTracks(t, steps[0]);
      if !t.k.halted { NextOnce(t, steps[0]); }
      if t'.k.halted || ExactlyOnce(t') { RunOnce(t', steps[1..]); }
    }
  }

  lemma {:induction false} OnceAtEnd(t: Traced, steps: seq<Step>)
    requires t.k.halted || Shape(t.k)
    requires AlwaysOnce(t, steps)
    ensures var r := TracedRun(t, steps); r.k.halted || ExactlyOnce(r)
    decreases |steps|
  {
    if steps == [] {
    } else {
      TracedNextShape(t, steps[0]);
      OnceAtEnd(TracedNext(t, steps[0]), steps[1..]);
    }
  }

  /** The signals of a run whose senders were told EXIT_SUCCESS. */
  ghost function Sent(k: KState, steps: seq<Step>): seq<Signal>
    requires k.halted || Shape(k)
    decreases |steps|
  {
    if steps == [] then []
    else
      RoundRobin.NextShape(k, steps[0]);
      SentIn(k, steps[0]) + Sent(Next(k, steps[0]), steps[1..])
  }

  ghost function SentIn(k: KState, s: Step): seq<Signal>
    requires k.halted || Shape(k)
  {
    if s.Send? && Enabled(k, s) && SendStep(k, s.to, s.dword, s.space).1 == EXIT_SUCCESS then
      SendAnswers(k, s.to, s.dword, s.space);
      assert ProcOk(k, k.cur);
      [Signal(Target(k, s.to), SenderPid(k), s.dword)]
    else []
  }

  /** Exactly those are in the history as accepted: no sender is told something else than what
    became of its signal. */
  lemma {:induction false} AcceptedAreSent(t: Traced, steps: seq<Step>)
    requires t.k.halted || Shape(t.k)
    ensures TracedRun(t, steps).accepted == t.accepted + Sent(t.k, steps)
    decreases |steps|
  {
    if steps == [] {
    } else {
      var s, t' := steps[0], TracedNext(t, steps[0]);
      TracedNextShape(t, s);
      TracedNextTracks(t, s);
      if s.Send? && Enabled(t.k, s) { SendAnswers(t.k, s.to, s.dword, s.space); }
      assert t'.accepted == t.accepted + SentIn(t.k, s);
      AcceptedAreSent(t', steps[1..]);
    }
  }

  ghost function Fresh(context: Context): (t: Traced)
    ensures ExactlyOnce(t)
  {
    var t := Traced(Init(context), [], []);
    assert NodeOk(t, 0);
    t
  }

  lemma SentFromBoot(context: Context, steps: seq<Step>)
    ensures TracedRun(Fresh(context), steps).accepted == Sent(Init(context), steps)
  {
    var t := Fresh(context);
    AcceptedAreSent(t, steps);
    assert t.accepted == [] && t.k == Init(context);
  }

  /** From boot, in every disciplined run: the signals to a process whose senders were told
    EXIT_SUCCESS are those that were read for it, in order, followed by at most one still pending;
    the index of its queue stays in {0, 1} and equals its lock. */
  lemma SignalsExactlyOnce(context: Context, steps: seq<Step>, q: nat)
    requires AlwaysDisciplined(Init(context), steps)
    requires var r := TracedRun(Fresh(context), steps); !r.k.halted && q < |r.k.nodes| && !r.k.nodes[q].handler
    ensures var r := TracedRun(Fresh(context), steps);
      var (sigq, sent, got) := (r.k.nodes[q].sigq, For(Words(Sent(Init(context), steps)), q), For(r.delivered, q));
      && (got == sent || exists w :: got + [w] == sent)
      && sigq.nextIndex <= 1
      && (sigq.rwlock <==> sigq.nextIndex == 1)
      && (sigq.nextIndex == 0 <==> got == sent)
  {
    var t := Fresh(context);
    RunOnce(t, steps);
    OnceAtEnd(t, steps);
    SentFromBoot(context, steps);
    assert NodeOk(TracedRun(t, steps), q);
  }

  /** A handler's own queue stays locked with one entry, so a signal that reaches a handler is
    answered with -EBUSY. */
  lemma HandlersAreBusy(t: Traced, to: int, dword: nat, space: Context)
    requires ExactlyOnce(t)
    requires Find(t.k, to) < |t.k.ring| && t.k.nodes[Target(t.k, to)].handler
    ensures SendStep(t.k, to, dword, space) == (t.k, -EBUSY)
  {
    assert ProcOk(t.k, t.k.cur) && ProcOk(t.k, Target(t.k, to)) && NodeOk(t, Target(t.k, to));
  }

  // ----- sender and payload over runs --------------------------------------------------------

  /** The signals sent to one process, in order. */
  function SentTo(sent: seq<Signal>, q: nat): seq<Signal> {
    if sent == [] then []
    else
      var last := sent[|sent| - 1];
      SentTo(sent[..|sent| - 1], q) + (if last.to == q then [last] else [])
  }

  lemma {:induction false} ForWords(sent: seq<Signal>, q: nat)
    ensures |For(Words(sent), q)| == |SentTo(sent, q)|
    ensures forall i :: 0 <= i < |SentTo(sent, q)| ==>
      SentTo(sent, q)[i] in sent && For(Words(sent), q)[i] == WordOf(SentTo(sent, q)[i])
    decreases |sent|
  {
    if sent == [] {
    } else {
      var front, last := sent[..|sent| - 1], sent[|sent| - 1];
      ForWords(front, q);
      assert Words(sent)[..|sent| - 1] == Words(front);
    }
  }

  /** PID_T is 16 bits wide. */
  ghost predicate PidsFit(k: KState) {
    && (forall i :: 0 <= i < |k.nodes| ==> -0x8000 <= k.nodes[i].pid <= PID_MAX)
    && -0x8000 <= k.nextPid <= PID_MAX
  }

  lemma NextPidsFit(k: KState, s: Step)
    requires Shape(k) && PidsFit(k)
    ensures PidsFit(Next(k, s))
  {
    if !s.Exit? { NextExtends(k, s); }
  }

  ghost predicate SendersFit(t: Traced) {
    PidsFit(t.k) && forall s :: s in t.accepted ==> -0x8000 <= s.sender <= PID_MAX
  }

  lemma NextSendersFit(t: Traced, s: Step)
    requires Shape(t.k) && SendersFit(t)
    ensures SendersFit(TracedNext(t, s))
  {
    NextPidsFit(t.k, s);
    TracedNextTracks(t, s);
    assert ProcOk(t.k, t.k.cur);
  }

  lemma {:induction false} RunSendersFit(t: Traced, steps: seq<Step>)
    requires (t.k.halted || Shape(t.k)) && SendersFit(t)
    ensures SendersFit(TracedRun(t, steps))
    decreases |steps|
  {
    if steps == [] {
    } else {
      TracedNextShape(t, steps[0]);
      if !t.k.halted { NextSendersFit(t, steps[0]); }
      RunSendersFit(TracedNext(t, steps[0]), steps[1..]);
    }
  }

  /** A word yields its sender exactly when the sender's PID is not negative; then it yields the
    payload too.  Otherwise it is read as 0. */
  lemma WordParts(s: Signal)
    requires -0x8000 <= s.sender <= PID_MAX
    ensures ExtractSource(WordOf(s)) == s.sender <==> 0 <= s.sender
    ensures 0 <= s.sender ==> ExtractPayload(WordOf(s)) == s.dword % TWO_TO_THE_32
    ensures s.sender < 0 ==> WordOf(s) == 0
  {
    PackRoundTrip(s.sender, s.dword % TWO_TO_THE_32);
  }

  /** From boot, in every disciplined run: the i-th word read for a process is that of the i-th
    signal that it was sent, and yields sender and payload exactly when the sender's PID was not
    negative; and at most one signal is still to be read. */
  lemma SignalsArriveIntact(context: Context, steps: seq<Step>, q: nat)
    requires AlwaysDisciplined(Init(context), steps)
    requires var r := TracedRun(Fresh(context), steps); !r.k.halted && q < |r.k.nodes| && !r.k.nodes[q].handler
    ensures var r := TracedRun(Fresh(context), steps);
      var (sent, got) := (SentTo(Sent(Init(context), steps), q), For(r.delivered, q));
      && |got| <= |sent| <= |got| + 1
      && forall i :: 0 <= i < |got| ==> Arrives(sent[i], got[i])
  {
    var t := Fresh(context);
    var r := TracedRun(t, steps);
    RunSendersFit(t, steps);
    SignalsExactlyOnce(context, steps, q);
    SentFromBoot(context, steps);
    ForWords(r.accepted, q);
    var (sent, got) := (SentTo(r.accepted, q), For(r.delivered, q));
    forall i | 0 <= i < |got| ensures Arrives(sent[i], got[i]) {
      assert got[i] == WordOf(sent[i]) && sent[i] in r.accepted;
      WordParts(sent[i]);
    }
  }

  /** Processes keep their PIDs, and handlers stay handlers. */
  lemma SameProcesses(k: KState, s: Step)
    requires Shape(k)
    ensures |k.nodes| <= |Next(k, s).nodes|
    ensures forall i :: 0 <= i < |k.nodes| ==>
      Next(k, s).nodes[i].pid == k.nodes[i].pid && Next(k, s).nodes[i].handler == k.nodes[i].handler
  {
    if Enabled(k, s) {
      match s
      case Send(to, dword, space) =>
        assert ProcOk(k, k.cur);
        if Accepts(k, to) { AcceptNodes(k, to, dword, space); }
      case Read => ReadNodes(k);
      case _ =>
        NextFramed(k, s);
        forall i | 0 <= i < |k.nodes| ensures Kin(s, k.nodes[i], Next(k, s).nodes[i]) { }
    }
  }

  /** The PID that a signal is attributed to is that of a process that is no handler. */
  ghost predicate FromUser(k: KState, s: Signal) {
    exists q :: 0 <= q < |k.nodes| && !k.nodes[q].handler && k.nodes[q].pid == s.sender
  }

  ghost predicate AllFromUsers(t: Traced) {
    forall s :: s in t.accepted ==> FromUser(t.k, s)
  }

  lemma NextFromUsers(t: Traced, s: Step)
    requires Shape(t.k) && AllFromUsers(t)
    ensures AllFromUsers(TracedNext(t, s))
  {
    var t' := TracedNext(t, s);
    var q := AttributedTo(t.k);
    TracedNextTracks(t, s);
    SameProcesses(t.k, s);
    forall x | x in t'.accepted ensures FromUser(t'.k, x) {
      if x in t.accepted {
        assert FromUser(t.k, x);
        var p :| 0 <= p < |t.k.nodes| && !t.k.nodes[p].handler && t.k.nodes[p].pid == x.sender;
        assert t'.k.nodes[p].pid == x.sender;
      } else {
        assert t'.k.nodes[q].pid == x.sender;
      }
    }
  }

  /** Over every run no signal is ever attributed to a handler. */
  lemma {:induction false} SignalsComeFromUsers(t: Traced, steps: seq<Step>)
    requires (t.k.halted || Shape(t.k)) && AllFromUsers(t)
    ensures AllFromUsers(TracedRun(t, steps))
    decreases |steps|
  {
    if steps == [] {
    } else {
      TracedNextShape(t, steps[0]);
      if !t.k.halted { NextFromUsers(t, steps[0]); }
      SignalsComeFromUsers(TracedNext(t, steps[0]), steps[1..]);
    }
  }

  predicate Arrives(sent: Signal, word: nat) {
    && (ExtractSource(word) == sent.sender <==> 0 <= sent.sender)
    && (0 <= sent.sender ==> ExtractPayload(word) == sent.dword % TWO_TO_THE_32)
    && (sent.sender < 0 ==> word == 0)
  }

  /** While the ring stays in PID order no sender's PID is negative. */
  lemma {:induction false} GuardedSenders(t: Traced, steps: seq<Step>)
    requires Ordered(t.k) && PidsPositive(t.k) && Guarded(t.k, steps)
    requires forall s :: s in t.accepted ==> 0 <= s.sender
    ensures forall s :: s in TracedRun(t, steps).accepted ==> 0 <= s.sender
    decreases |steps|
  {
    if steps == [] {
    } else {
      NextOrder(t.k, steps[0]);
      NextPidsPositive(t.k, steps[0]);
      TracedNextTracks(t, steps[0]);
      assert ProcOk(t.k, t.k.cur);
      GuardedSenders(TracedNext(t, steps[0]), steps[1..]);
    }
  }

  // ----- reads outside the discipline ---------------------------------------------------------

  /** A read leaves the array exactly when a handler reads while its parent has nothing pending.
    The parent's index is then 255, and the parent rejects every signal from then on. */
  lemma SecondReadUnderflows(t: Traced, to: int, dword: nat, space: Context)
    requires ExactlyOnce(t)
    ensures var (k', result) := ReadStep(t.k);
      var p := ReadOwner(t.k);
      && Shape(k') && p < |k'.nodes|
      && (result.OutOfBounds? <==> !MayRead(t.k))
      && (result.OutOfBounds? ==>
            && k'.nodes[p].sigq.nextIndex == 255
            && (Find(k', to) < |k'.ring| && Target(k', to) == p ==>
                  SendStep(k', to, dword, space) == (k', -EREJECTED)))
  {
    ReadKeepsShape(t.k);
    var p := ReadOwner(t.k);
    assert ProcOk(t.k, t.k.cur) && NodeOk(t, t.k.cur);
    assert ProcOk(t.k, p) && NodeOk(t, p);
  }

  const SPACE: Context := Context(0, 0)
  const CALLBACK: int := 0x1000
  const TO_SELF: seq<Step> := [Hook(Some(CALLBACK)), Send(1, 7, SPACE), Tick(SPACE), Read]

  /** init has hooked and sent itself a signal, and process `cur` executes. */
  ghost predicate HandlerExists(k: KState, cur: nat, index: nat) {
    && Shape(k) && k.ring == [0, 1] && k.cur == cur && k.curNext.None? && |k.nodes| == 2
    && k.nodes[1].handler && k.nodes[1].parent == Some(0) && k.nodes[1].sigq.nextIndex == 1
    && k.nodes[0].sigq.nextIndex == index
  }

  lemma HandlerIsCreated(k0: KState)
    requires k0 == Init(SPACE)
    ensures var k1 := Next(k0, TO_SELF[0]);
      Shape(k1) && HandlerExists(Next(k1, TO_SELF[1]), 0, 1)
  {
    var k1 := Next(k0, TO_SELF[0]);
    NextKeepsShape(k0, TO_SELF[0]);
    assert k1.nodes[0].sigq == EMPTY_QUEUE.(callback := Some(CALLBACK)) && k1.ring == [0];
    assert Find(k1, 1) == 0;
    AcceptNodes(k1, 1, 7, SPACE);
    NextKeepsShape(k1, TO_SELF[1]);
  }

  lemma HandlerRuns(k: KState)
    requires HandlerExists(k, 0, 1)
    ensures HandlerExists(Next(k, Tick(SPACE)), 1, 1)
  {
    PosUnique(k.ring, 0);
    NextKeepsShape(k, Tick(SPACE));
  }

  lemma HandlerReads(k: KState)
    requires HandlerExists(k, 1, 1)
    ensures HandlerExists(Next(k, Read), 1, 0)
  {
    NextKeepsShape(k, Read);
    ReadNodes(k);
  }

  /** Such a read is reached from boot: init hooks, sends itself a signal, and its handler reads
    twice.  All steps but the last are disciplined. */
  lemma UnderflowIsReached()
    ensures AlwaysDisciplined(Init(SPACE), TO_SELF)
    ensures var r := TracedRun(Fresh(SPACE), TO_SELF);
      !r.k.halted && ExactlyOnce(r) && Enabled(r.k, Read) && !Disciplined(r.k, Read) && ReadStep(r.k).1.OutOfBounds?
  {
    var t := Fresh(SPACE);
    ToSelfRuns();
    TracedRunTracks(t, TO_SELF);
    RunOnce(t, TO_SELF);
    OnceAtEnd(t, TO_SELF);
    SecondReadUnderflows(TracedRun(t, TO_SELF), 0, 0, SPACE);
  }

  lemma ToSelfRuns()
    ensures AlwaysDisciplined(Init(SPACE), TO_SELF) && HandlerExists(Run(Init(SPACE), TO_SELF), 1, 0)
  {
    var k0 := Init(SPACE);
    HandlerIsCreated(k0);
    var k1 := Next(k0, TO_SELF[0]);
    var k2 := Next(k1, TO_SELF[1]);
    HandlerRuns(k2);
    var k3 := Next(k2, TO_SELF[2]);
    HandlerReads(k3);
    var rest := TO_SELF[1..][1..];
    assert TO_SELF[1..][0] == TO_SELF[1] && rest[0] == TO_SELF[2] && rest[1..] == [Read] && [Read][1..] == [];
    assert AlwaysDisciplined(k3, [Read]) && Run(k3, [Read]) == Next(k3, Read);
    assert AlwaysDisciplined(k2, rest) && Run(k2, rest) == Next(k3, Read);
  }

  lemma {:induction false} TracedRunTracks(t: Traced, steps: seq<Step>)
    requires t.k.halted || Shape(t.k)
    ensures TracedRun(t, steps).k == Run(t.k, steps)
    decreases |steps|
  {
    if steps == [] {
    } else {
      TracedNextShape(t, steps[0]);
      TracedNextTracks(t, steps[0]);
      TracedRunTracks(TracedNext(t, steps[0]), steps[1..]);
    }
  }
}
