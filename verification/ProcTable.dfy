/** The structures that proc.c links into a ring. */
module ProcNodes {
  import opened Common
  import opened ProcSpec
  import Ring

  class Process {
    ghost const id: nat                 // stands for the address
    var pid: int
    var state: PState
    var perm: Mask
    var context: Context
    var groups: seq<nat>
    var handler: bool
    var sigq: SignalQueue
    var parent: Process?
    var prev: Process?
    var next: Process?

    constructor (ghost id: nat, pid: int, perm: Mask, context: Context)
      ensures this.id == id && Is(Proc(pid, Ready, perm, context, [], false, EMPTY_QUEUE, None))
    {
      this.id, this.pid, state, this.perm, this.context := id, pid, Ready, perm, context;
      groups, handler, sigq, parent, prev, next := [], false, EMPTY_QUEUE, null, null, null;
    }

    ghost predicate Is(p: Proc)
      reads `pid, `state, `perm, `context, `groups, `handler, `sigq, `parent
    {
      && pid == p.pid && state == p.state && perm == p.perm && context == p.context
      && groups == p.groups && handler == p.handler && sigq == p.sigq
      && (if parent == null then p.parent.None? else p.parent == Some(parent.id))
    }
  }

  /** Structure i is at its place and holds the i-th value. */
  ghost predicate NodeOk(nodes: seq<Process>, values: seq<Proc>, i: nat)
    reads if i < |nodes| then {nodes[i]} else {}
    requires i < |nodes| == |values|
  {
    && nodes[i].id == i
    && nodes[i].Is(values[i])
    && (nodes[i].parent != null ==> nodes[i].parent in nodes)
  }

  ghost predicate Holds(nodes: seq<Process>, values: seq<Proc>)
    reads nodes
  {
    |nodes| == |values| && forall i :: 0 <= i < |nodes| ==> NodeOk(nodes, values, i)
  }

  ghost predicate NextOk(nodes: seq<Process>, ring: seq<nat>, j: nat)
    reads nodes`next
    requires j < |ring| && forall i :: 0 <= i < |ring| ==> ring[i] < |nodes|
  {
    nodes[ring[j]].next == nodes[if j + 1 == |ring| then ring[0] else ring[j + 1]]
  }

  ghost predicate PrevOk(nodes: seq<Process>, ring: seq<nat>, j: nat)
    reads nodes`prev
    requires j < |ring| && forall i :: 0 <= i < |ring| ==> ring[i] < |nodes|
  {
    j > 0 ==> nodes[ring[j]].prev == nodes[ring[j - 1]]
  }

  /** From the first structure, queue_base, `next` runs through the ring and closes it; `prev`
    runs backwards on every structure but queue_base. */
  ghost predicate Linked(nodes: seq<Process>, ring: seq<nat>)
    reads nodes`next, nodes`prev
  {
    && 0 < |ring| && Distinct(ring) && ring[0] == 0
    && (forall j :: 0 <= j < |ring| ==> ring[j] < |nodes|)
    && (forall j :: 0 <= j < |ring| ==> NextOk(nodes, ring, j))
    && (forall j :: 0 <= j < |ring| ==> PrevOk(nodes, ring, j))
  }

  ghost predicate Ids(nodes: seq<Process>) {
    forall i :: 0 <= i < |nodes| ==> nodes[i].id == i
  }

  lemma HoldsIds(nodes: seq<Process>, values: seq<Proc>)
    requires Holds(nodes, values)
    ensures Ids(nodes)
  {
    forall i | 0 <= i < |nodes| ensures nodes[i].id == i { assert NodeOk(nodes, values, i); }
  }

  lemma HoldsAppended(nodes: seq<Process>, values: seq<Proc>, process: Process, p: Proc)
    requires Holds(nodes, values) && process.id == |nodes| && process.Is(p) && process.parent == null
    ensures Holds(nodes + [process], values + [p])
  {
    var nodes', values' := nodes + [process], values + [p];
    forall i | 0 <= i < |nodes'| ensures NodeOk(nodes', values', i) {
      if i < |nodes| { assert NodeOk(nodes, values, i); }
    }
  }

  lemma HoldsStored(nodes: seq<Process>, values: seq<Proc>, i: nat, p: Proc)
    requires |nodes| == |values| && i < |nodes|
    requires forall j :: 0 <= j < |nodes| && j != i ==> NodeOk(nodes, values, j)
    requires NodeOk(nodes, values[i := p], i)
    ensures Holds(nodes, values[i := p])
  {
    var values' := values[i := p];
    forall j | 0 <= j < |nodes| ensures NodeOk(nodes, values', j) {
      if j != i { assert NodeOk(nodes, values, j); }
    }
  }

  /** Linked, except that the last structure of the ring points somewhere else. */
  ghost predicate LinkedButLast(nodes: seq<Process>, ring: seq<nat>)
    reads nodes`next, nodes`prev
  {
    && 0 < |ring| && Distinct(ring) && ring[0] == 0
    && (forall j :: 0 <= j < |ring| ==> ring[j] < |nodes|)
    && (forall j :: 0 <= j < |ring| - 1 ==> NextOk(nodes, ring, j))
    && (forall j :: 0 <= j < |ring| ==> PrevOk(nodes, ring, j))
  }

  /** A new structure behind the last one of the ring. */
  lemma LinkedAppended(nodes: seq<Process>, ring: seq<nat>, process: Process)
    requires LinkedButLast(nodes, ring)
    requires nodes[ring[|ring| - 1]].next == process
    requires process.next == nodes[0] && process.prev == nodes[ring[|ring| - 1]]
    ensures Linked(nodes + [process], ring + [|nodes|])
  {
    var nodes', ring' := nodes + [process], ring + [|nodes|];
    forall j | 0 <= j < |ring'| ensures NextOk(nodes', ring', j) && PrevOk(nodes', ring', j) {
      if j < |ring| { assert PrevOk(nodes, ring, j) && (j < |ring| - 1 ==> NextOk(nodes, ring, j)); }
    }
  }

  /** A structure taken out of the ring: its neighbours point past it. */
  lemma LinkedRemoved(nodes: seq<Process>, ring: seq<nat>, pos: nat)
    requires |ring| > 0 && Distinct(ring) && ring[0] == 0 && 0 < pos < |ring|
    requires forall j :: 0 <= j < |ring| ==> ring[j] < |nodes|
    requires forall j :: 0 <= j < |ring| && j != pos - 1 ==> NextOk(nodes, ring, j)
    requires forall j :: 0 <= j < |ring| && j != pos + 1 ==> PrevOk(nodes, ring, j)
    requires nodes[ring[pos - 1]].next == nodes[if pos + 1 == |ring| then ring[0] else ring[pos + 1]]
    requires pos + 1 < |ring| ==> nodes[ring[pos + 1]].prev == nodes[ring[pos - 1]]
    ensures Linked(nodes, RemoveAt(ring, pos))
  {
    var r := RemoveAt(ring, pos);
    Ring.RemoveAtEntries(ring, pos);
    forall j | 0 <= j < |r| ensures NextOk(nodes, r, j) && PrevOk(nodes, r, j) {
      var i := if j < pos then j else j + 1;
      assert i != pos - 1 ==> NextOk(nodes, ring, i);
      assert i != pos + 1 ==> PrevOk(nodes, ring, i);
    }
  }

  /** The parent pointer leads to the structure that its value names. */
  lemma ParentIs(nodes: seq<Process>, values: seq<Proc>, i: nat)
    requires Holds(nodes, values) && i < |nodes| && values[i].parent.Some?
    ensures nodes[i].parent != null && values[i].parent.value < |nodes|
    ensures nodes[i].parent == nodes[values[i].parent.value]
  {
    assert NodeOk(nodes, values, i);
    HoldsIds(nodes, values);
  }
}

/** The process table as proc.c keeps it: structures linked by `next` and `prev`, reached from
  queue_base, queue_head and current_task.  Every method is proved to make exactly the step of
  ProcSpec that bears its name, so everything proved there about runs holds of this code. */
module ProcTable {
  import opened Common
  import opened ProcSpec
  import opened ProcNodes

  lemma FindSelf(k: KState, j: nat)
    requires RingOk(k) && j < |k.ring|
    ensures Find(k, PidAt(k, j)) <= j
  {
  }

  class Table {
    var queueHead: Process
    var queueBase: Process
    var currentTask: Process
    var nextPid: int
    var driverTypes: array<bool>

    ghost var nodes: seq<Process>       // every structure ever allocated
    ghost var model: KState                 // what they amount to

    ghost predicate Valid()
      reads this, nodes, driverTypes
    {
      && Shape(model) && Holds(nodes, model.nodes) && Linked(nodes, model.ring)
      && queueBase == nodes[0]
      && queueHead == nodes[model.ring[|model.ring| - 1]]
      && currentTask == nodes[model.cur]
      && (model.curNext.Some? ==> currentTask.next == nodes[model.curNext.value])
      && nextPid == model.nextPid
      && driverTypes[..] == model.drivers
    }

    /** proc_init. */
    constructor (context: Context)
      ensures Valid() && model == Init(context)
    {
      var base := new Process(0, 1, PPERM_SUPER_ADMIN, context);
      queueBase, queueHead, currentTask := base, base, base;
      nextPid := 2;
      driverTypes := new bool[DRIVERTYPE_COUNT](_ => false);
      nodes, model := [base], Init(context);
      new;
      queueBase.prev := queueBase;
      queueBase.next := queueBase;
      Ring.InitShape(context);
    }

    /** locate_proc, and the search loop of psignal_send. */
    method LocateProc(pid: int) returns (p: Process?)
      requires Holds(nodes, model.nodes) && RingOk(model) && Linked(nodes, model.ring) && queueBase == nodes[0]
      ensures p == null <==> Find(model, pid) == |model.ring|
      ensures p != null ==> p == nodes[model.ring[Find(model, pid)]]
    {
      p := queueBase;
      ghost var j := 0;
      HoldsIds(nodes, model.nodes);
      while true
        invariant 0 <= j < |model.ring| && p == nodes[model.ring[j]]
        invariant Find(model, pid) == FindFrom(model, pid, j)
        decreases |model.ring| - j
      {
        assert NodeOk(nodes, model.nodes, model.ring[j]) && NextOk(nodes, model.ring, j);
        if p.pid == pid {
          return p;
        }
        p := p.next;
        j := j + 1;
        if p == queueBase {
          return null;
        }
      }
    }

    /** The search loop of perm_grant and perm_revoke, which looks at queue_base last. */
    method LocateBaseLast(pid: int) returns (p: Process?)
      requires Holds(nodes, model.nodes) && RingOk(model) && Linked(nodes, model.ring) && queueBase == nodes[0]
      ensures p == null <==> FindBaseLast(model, pid) == |model.ring|
      ensures p != null ==> p == nodes[model.ring[FindBaseLast(model, pid)]]
    {
      var current := queueBase;
      ghost var j := 0;
      HoldsIds(nodes, model.nodes);
      assert NodeOk(nodes, model.nodes, 0);
      while true
        invariant 0 <= j < |model.ring| && current == nodes[model.ring[j]]
        invariant FindFrom(model, pid, 1) == FindFrom(model, pid, j + 1)
        decreases |model.ring| - j
      {
        assert NextOk(nodes, model.ring, j);
        current := current.next;
        j := j + 1;
        if j < |model.ring| { assert NodeOk(nodes, model.nodes, model.ring[j]); }
        if current.pid == pid {
          return current;
        }
        if current == queueBase {
          return null;
        }
      }
    }

    /** _spawn. */
    method Spawn(permissions: Mask, space: Context) returns (errno: int)
      requires Valid()
      modifies this, nodes
      ensures Valid() && model == SpawnStep(old(model), permissions, space).0
      ensures errno == SpawnStep(old(model), permissions, space).1
      ensures errno != EXIT_SUCCESS ==> nodes == old(nodes)
      ensures errno == EXIT_SUCCESS ==> nodes == old(nodes) + [queueHead] && fresh(queueHead)
    {
      assert NodeOk(nodes, model.nodes, model.cur);
      if permissions != {} && PPERM_PERM !in currentTask.perm {
        return -EPERM;
      }
      Create(permissions, space);
      AssertHeadFound();
      return EXIT_SUCCESS;
    }

    /** _initrd_spawn, which returns the new PID.  When next_pid has wrapped around to a negative
      number, success looks like an error. */
    method InitrdSpawn(permissions: Mask, space: Context) returns (pid: int)
      requires Valid()
      modifies this, nodes
      ensures Valid() && model == SpawnStep(old(model), permissions, space).0
      ensures var refused := permissions != {} && PPERM_PERM !in Cur(old(model)).perm;
        && (refused ==> pid == -EPERM && model == old(model))
        && (!refused ==> |model.nodes| == |old(model).nodes| + 1 && pid == model.nodes[|old(model).nodes|].pid)
        && (pid < 0 <==> refused || old(nextPid) < 0)
    {
      var errno := Spawn(permissions, space);
      if errno < 0 {
        return errno;
      }
      assert NodeOk(nodes, model.nodes, |model.nodes| - 1);
      return queueHead.pid;
    }

    /** The assertion of _spawn. */
    method AssertHeadFound()
      requires Valid()
    {
      assert NodeOk(nodes, model.nodes, model.ring[|model.ring| - 1]);
      var found := LocateProc(queueHead.pid);
      FindSelf(model, |model.ring| - 1);
      assert found != null;
    }

    method Create(permissions: Mask, space: Context)
      requires Valid()
      modifies this, nodes
      ensures Valid() && nodes == old(nodes) + [queueHead] && fresh(queueHead)
      ensures var p := Proc(old(model).nextPid, Ready, permissions, space, [], false, EMPTY_QUEUE, None);
        model == Append(old(model), p)
    {
      var process := new Process(|model.nodes|, nextPid, permissions, space);
      Add(process, Proc(nextPid, Ready, permissions, space, [], false, EMPTY_QUEUE, None));
    }

    /** The part of _spawn that makes a new structure the head of the queue. */
    method Add(process: Process, ghost p: Proc)
      requires Valid() && process !in nodes && process.id == |nodes| && process.Is(p)
      requires p == Proc(nextPid, Ready, p.perm, p.context, [], false, EMPTY_QUEUE, None)
      modifies `queueHead, `nextPid, `nodes, `model, queueHead`next, process`next, process`prev
      ensures Valid() && nodes == old(nodes) + [process] && model == Append(old(model), p)
    {
      ghost var ns, k := nodes, model;
      HoldsIds(ns, k.nodes);
      nextPid := Wrap16(nextPid + 1);
      nodes, model := nodes + [process], Append(model, p);
      Link(process, ns, k.nodes, k.ring);
      Ring.AppendKeepsShape(k, p);
      HoldsAppended(ns, k.nodes, process, p);
    }

    method Link(process: Process, ghost ns: seq<Process>, ghost values: seq<Proc>, ghost ring: seq<nat>)
      requires Holds(ns, values) && Linked(ns, ring) && process !in ns
      requires queueBase == ns[0] && queueHead == ns[ring[|ring| - 1]]
      modifies `queueHead, queueHead`next, process`next, process`prev
      ensures queueHead == process && Holds(ns, values)
      ensures Linked(ns + [process], ring + [|ns|])
    {
      HoldsIds(ns, values);
      var prev := queueHead;
      queueHead.next := process;
      queueHead := process;
      queueHead.next := queueBase;
      queueHead.prev := prev;
      forall j | 0 <= j < |ring|
        ensures PrevOk(ns, ring, j) && (j < |ring| - 1 ==> NextOk(ns, ring, j))
      {
        assert old(PrevOk(ns, ring, j) && NextOk(ns, ring, j));
      }
      LinkedAppended(ns, ring, process);
      forall i | 0 <= i < |ns| ensures NodeOk(ns, values, i) {
        assert old(NodeOk(ns, values, i));
      }
    }

    /** psignal_hook. */
    method PsignalHook(callback: Option<int>)
      requires Valid()
      modifies currentTask`sigq, `model
      ensures Valid() && model == HookStep(old(model), callback)
    {
      Ring.HookKeepsShape(model, callback);
      assert NodeOk(nodes, model.nodes, model.cur);
      StoreQueue(currentTask, currentTask.sigq.(callback := callback), model.cur);
    }

    /** psignal_exec_callback, for the structure with index t. */
    method ExecCallback(sigq: SignalQueue, to: Process, space: Context, ghost t: nat)
      requires Valid() && t < |nodes| && to == nodes[t] && !to.handler && sigq == to.sigq
      requires |sigq.queue| == PSIGNAL_QUEUE_SIZE && sigq.rwlock
      modifies this, nodes
      ensures Valid()
      ensures model == if sigq.callback.None? then old(model) else Append(old(model), HandlerFor(old(model), t, space))
    {
      if sigq.callback.Some? {
        ghost var k := model;
        assert NodeOk(nodes, model.nodes, t);
        var errno := Spawn({}, space);
        AdoptHead(to, k, t, space);
      }
    }

    /** The part of psignal_exec_callback behind _spawn; `k` is the state before. */
    method AdoptHead(to: Process, ghost k: KState, ghost t: nat, ghost space: Context)
      requires Valid() && Shape(k) && model == SpawnStep(k, {}, space).0
      requires t < |k.nodes| && to == nodes[t] && queueHead == nodes[|k.nodes|]
      requires !k.nodes[t].handler && k.nodes[t].sigq.rwlock && |k.nodes[t].sigq.queue| == PSIGNAL_QUEUE_SIZE
      modifies queueHead, `model
      ensures Valid() && model == Append(k, HandlerFor(k, t, space))
    {
      HandlerNodes(k, t, space);
      ghost var values, p := model.nodes, HandlerFor(k, t, space);
      model := Append(k, p);
      Adopt(queueHead, to, nodes, values, |k.nodes|, t, p);
    }

    /** The handler is the structure that _spawn makes, with some fields replaced. */
    lemma HandlerNodes(k: KState, t: nat, space: Context)
      requires Shape(k) && t < |k.nodes| && !k.nodes[t].handler && k.nodes[t].sigq.rwlock
      requires |k.nodes[t].sigq.queue| == PSIGNAL_QUEUE_SIZE
      ensures var (k1, p, n) := (SpawnStep(k, {}, space).0, HandlerFor(k, t, space), |k.nodes|);
        && Shape(Append(k, p)) && |k1.nodes| == n + 1 && k1.nodes[n := p] == Append(k, p).nodes
        && p == k1.nodes[n].(perm := k1.nodes[t].perm, context := p.context, parent := Some(t),
                             sigq := k1.nodes[t].sigq, handler := true)
        && k1.nodes[n].context == p.context.(cr3 := k1.nodes[n].context.cr3)
        && p.context.cr3 == k1.nodes[t].context.cr3
    {
      Ring.AppendKeepsShape(k, HandlerFor(k, t, space));
    }

    /** What psignal_exec_callback writes into the structure that _spawn has just made. */
    static method Adopt(process: Process, to: Process, ghost ns: seq<Process>, ghost values: seq<Proc>,
                        ghost n: nat, ghost t: nat, ghost p: Proc)
      requires Holds(ns, values) && n < |ns| && t < |ns| && n != t && process == ns[n] && to == ns[t]
      requires values[n].context == p.context.(cr3 := values[n].context.cr3)
      requires p == values[n].(perm := values[t].perm, context := p.context, parent := Some(t),
                               sigq := values[t].sigq, handler := true)
      requires p.context.cr3 == values[t].context.cr3
      modifies process`perm, process`context, process`parent, process`sigq, process`handler
      ensures Holds(ns, values[n := p])
    {
      HoldsIds(ns, values);
      assert NodeOk(ns, values, n) && NodeOk(ns, values, t);
      process.perm := to.perm;
      process.context := process.context.(cr3 := to.context.cr3);
      process.parent := to;
      process.sigq := to.sigq;
      process.handler := true;
      forall j | 0 <= j < |ns| && j != n ensures NodeOk(ns, values, j) {
        assert old(NodeOk(ns, values, j));
      }
      HoldsStored(ns, values, n, p);
    }

    /** The queue of a structure is overwritten; `k` is the state before. */
    method StoreQueue(p: Process, sigq: SignalQueue, ghost i: nat)
      requires Valid() && i < |nodes| && p == nodes[i]
      requires Shape(SetNode(model, i, model.nodes[i].(sigq := sigq)))
      modifies p`sigq, `model
      ensures Valid() && model == SetNode(old(model), i, old(model).nodes[i].(sigq := sigq))
    {
      ghost var values := model.nodes;
      HoldsIds(nodes, values);
      assert NodeOk(nodes, values, i);
      model := SetNode(model, i, values[i].(sigq := sigq));
      p.sigq := sigq;
      forall j | 0 <= j < |nodes| && j != i ensures NodeOk(nodes, values, j) {
        assert old(NodeOk(nodes, values, j));
      }
      HoldsStored(nodes, values, i, values[i].(sigq := sigq));
    }

    /** psignal_send. */
    method PsignalSend(to: int, dword: nat, space: Context) returns (errno: int)
      requires Valid()
      modifies this, nodes
      ensures Valid() && model == SendStep(old(model), to, dword, space).0
      ensures errno == SendStep(old(model), to, dword, space).1
    {
      var current := LocateProc(to);
      if current == null {
        return -EXIT_FAILURE;
      }
      ghost var t := model.ring[Find(model, to)];
      assert ProcOk(model, t) && ProcOk(model, model.cur);
      assert NodeOk(nodes, model.nodes, t) && NodeOk(nodes, model.nodes, model.cur);
      var sigq := current.sigq;
      if sigq.nextIndex >= PSIGNAL_QUEUE_SIZE {
        return -EREJECTED;
      }
      if sigq.rwlock {
        return -EBUSY;
      }
      var sender := SenderOf();
      sigq := Pushed(sigq, PackSignal(sender, dword));
      Ring.SetNodeKeepsShape(model, t, model.nodes[t].(sigq := sigq));
      StoreQueue(current, sigq, t);
      assert NodeOk(nodes, model.nodes, t);
      ExecCallback(sigq, current, space, t);
      return EXIT_SUCCESS;
    }

    method SenderOf() returns (pid: int)
      requires Valid()
      ensures Cur(model).handler ==> Cur(model).parent.Some? && Cur(model).parent.value < |model.nodes|
      ensures pid == SenderPid(model)
    {
      assert ProcOk(model, model.cur) && NodeOk(nodes, model.nodes, model.cur);
      if currentTask.handler {
        ParentIs(nodes, model.nodes, model.cur);
        assert NodeOk(nodes, model.nodes, Cur(model).parent.value);
        return currentTask.parent.pid;
      }
      return currentTask.pid;
    }

    /** What psignal_read makes of the queue that it tests and the one that it pops. */
    static predicate Popped(mine: SignalQueue, owned: SignalQueue, sigq: SignalQueue, result: ReadResult)
      requires |owned.queue| == PSIGNAL_QUEUE_SIZE
    {
      var index := (owned.nextIndex - 1) % 256;
      if mine.nextIndex == 0 then
        sigq == owned.(rwlock := false) && result == Word(0)
      else
        && sigq == owned.(rwlock := false, nextIndex := index)
        && result == if index >= PSIGNAL_QUEUE_SIZE then OutOfBounds
                     else Word(if TopBitsUntouched(owned.queue[index]) then owned.queue[index] else 0)
    }

    static lemma ReadOwnerIs(k: KState)
      requires Shape(k)
      ensures ReadOwner(k) < |k.nodes| && |k.nodes[ReadOwner(k)].sigq.queue| == PSIGNAL_QUEUE_SIZE
      ensures Cur(k).handler ==> Cur(k).parent == Some(ReadOwner(k))
      ensures !Cur(k).handler ==> ReadOwner(k) == k.cur
    {
      assert ProcOk(k, k.cur);
      assert ProcOk(k, ReadOwner(k));
    }

    static lemma ReadStores(k: KState, sigq: SignalQueue, result: ReadResult)
      requires Shape(k) && ReadOwner(k) < |k.nodes|
      requires var owned := k.nodes[ReadOwner(k)].sigq;
        |owned.queue| == PSIGNAL_QUEUE_SIZE && Popped(Cur(k).sigq, owned, sigq, result)
      ensures var k' := SetNode(k, ReadOwner(k), k.nodes[ReadOwner(k)].(sigq := sigq));
        Shape(k') && ReadStep(k) == (k', result)
    {
      Ring.ReadKeepsShape(k);
    }

    /** psignal_read; a read outside the queue is reported. */
    method PsignalRead() returns (result: ReadResult)
      requires Valid() && model.curNext.None?
      modifies nodes, `model
      ensures Valid() && model == ReadStep(old(model)).0 && result == ReadStep(old(model)).1
    {
      ReadOwnerIs(model);
      assert NodeOk(nodes, model.nodes, model.cur) && NodeOk(nodes, model.nodes, ReadOwner(model));
      var mine, owner := currentTask.sigq, currentTask;
      if currentTask.handler {
        ParentIs(nodes, model.nodes, model.cur);
        owner := currentTask.parent;
      }
      var sigq;
      sigq, result := Pop(mine, owner.sigq);
      ReadStores(model, sigq, result);
      StoreQueue(owner, sigq, ReadOwner(model));
    }

    /** The part of psignal_read that works on the two queues. */
    static method Pop(mine: SignalQueue, owned: SignalQueue) returns (sigq: SignalQueue, result: ReadResult)
      requires |owned.queue| == PSIGNAL_QUEUE_SIZE
      ensures Popped(mine, owned, sigq, result)
    {
      sigq := owned.(rwlock := false);
      if mine.nextIndex == 0 {
        result := Word(0);
      } else {
        sigq := sigq.(nextIndex := (sigq.nextIndex - 1) % 256);
        if sigq.nextIndex >= PSIGNAL_QUEUE_SIZE {
          result := OutOfBounds;
        } else {
          var signal := sigq.queue[sigq.nextIndex];
          result := Word(if TopBitsUntouched(signal) then signal else 0);
        }
      }
    }

    /** The context and state of a structure are overwritten. */
    static method StoreState(p: Process, context: Context, state: PState,
                             ghost ns: seq<Process>, ghost values: seq<Proc>, ghost i: nat)
      requires Holds(ns, values) && i < |ns| && p == ns[i]
      modifies p`context, p`state
      ensures Holds(ns, values[i := values[i].(context := context, state := state)])
    {
      HoldsIds(ns, values);
      assert NodeOk(ns, values, i);
      p.context, p.state := context, state;
      forall j | 0 <= j < |ns| && j != i ensures NodeOk(ns, values, j) {
        assert old(NodeOk(ns, values, j));
      }
      HoldsStored(ns, values, i, values[i].(context := context, state := state));
    }

    /** proc_get_next of current_task is the structure whose turn it is. */
    lemma NextIs()
      requires Valid()
      ensures currentTask.next == nodes[model.ring[NextPos(model)]]
    {
      if model.curNext.None? { assert NextOk(nodes, model.ring, Pos(model.ring, model.cur)); }
    }

    /** A structure that is not to run is not marked RUNNING. */
    static lemma ReadyKeepsShape(k: KState, saved: Context)
      requires Shape(k)
      ensures Shape(SetNode(k, k.cur, Cur(k).(context := saved, state := Ready)))
    {
      var k' := SetNode(k, k.cur, Cur(k).(context := saved, state := Ready));
      forall i | 0 <= i < |k'.nodes| ensures ProcOk(k', i) { assert ProcOk(k, i); }
    }

    /** The first half of switch_task. */
    method SaveContext(saved: Context)
      requires Valid()
      modifies currentTask`context, currentTask`state, `model
      ensures Valid()
      ensures var k := old(model); model == SetNode(k, k.cur, Cur(k).(context := saved, state := Ready))
    {
      ghost var k := model;
      ReadyKeepsShape(k, saved);
      model := SetNode(k, k.cur, Cur(k).(context := saved, state := Ready));
      StoreState(currentTask, saved, Ready, nodes, k.nodes, k.cur);
    }

    /** The state after the second half of switch_task. */
    static ghost function Resumed(k: KState): KState
      requires Shape(k)
    {
      var next := k.ring[NextPos(k)];
      SetNode(k, next, k.nodes[next].(state := Running)).(cur := next, curNext := None)
    }

    /** The second half of switch_task. */
    method LoadContext() returns (loaded: Context)
      requires Valid() && Shape(Resumed(model))
      modifies nodes, `currentTask, `model
      ensures Valid() && model == Resumed(old(model)) && loaded == Cur(model).context
    {
      NextIs();
      ghost var k, next := model, model.ring[NextPos(model)];
      model := Resumed(k);
      currentTask := currentTask.next;
      assert NodeOk(nodes, k.nodes, next);
      loaded := currentTask.context;
      StoreState(currentTask, loaded, Running, nodes, k.nodes, next);
      assert k.nodes[next].(context := loaded, state := Running) == k.nodes[next].(state := Running);
    }

    /** switch_task: saves the registers of current_task and returns those to load. */
    method SwitchTask(saved: Context) returns (loaded: Context)
      requires Valid()
      modifies nodes, `currentTask, `model
      ensures Valid() && model == TickStep(old(model), saved)
      ensures loaded == Cur(model).context
    {
      Ring.TickKeepsShape(model, saved);
      SaveContext(saved);
      loaded := LoadContext();
    }

    /** perm_grant. */
    method PermGrant(pid: int, perms: Mask) returns (errno: int)
      requires Valid()
      modifies nodes, `model
      ensures Valid() && model == GrantStep(old(model), pid, perms).0
      ensures errno == GrantStep(old(model), pid, perms).1
    {
      assert NodeOk(nodes, model.nodes, model.cur);
      if PPERM_PERM !in currentTask.perm {
        return -EPERM;
      }
      var current := LocateBaseLast(pid);
      if current == null {
        return EXIT_FAILURE;
      }
      ghost var t := model.ring[FindBaseLast(model, pid)];
      assert NodeOk(nodes, model.nodes, t);
      StoreMask(current, current.perm + perms, t);
      return EXIT_SUCCESS;
    }

    /** perm_revoke. */
    method PermRevoke(pid: int, perms: Mask) returns (errno: int)
      requires Valid()
      modifies nodes, `model
      ensures Valid() && model == RevokeStep(old(model), pid, perms).0
      ensures errno == RevokeStep(old(model), pid, perms).1
    {
      assert NodeOk(nodes, model.nodes, model.cur);
      if PPERM_PERM !in currentTask.perm {
        return -EPERM;
      }
      var current := LocateBaseLast(pid);
      if current == null {
        return -EXIT_FAILURE;
      }
      ghost var t := model.ring[FindBaseLast(model, pid)];
      assert NodeOk(nodes, model.nodes, t);
      StoreMask(current, current.perm - perms, t);
      return EXIT_SUCCESS;
    }

    method StoreMask(p: Process, perm: Mask, ghost i: nat)
      requires Valid() && i < |nodes| && p == nodes[i]
      modifies p`perm, `model
      ensures Valid() && model == SetNode(old(model), i, old(model).nodes[i].(perm := perm))
    {
      ghost var values := model.nodes;
      HoldsIds(nodes, values);
      assert NodeOk(nodes, values, i);
      Ring.PermKeepsShape(model, i, perm);
      model := SetNode(model, i, values[i].(perm := perm));
      p.perm := perm;
      forall j | 0 <= j < |nodes| && j != i ensures NodeOk(nodes, values, j) {
        assert old(NodeOk(nodes, values, j));
      }
      HoldsStored(nodes, values, i, values[i].(perm := perm));
    }

    /** verify_drvmaster. */
    method VerifyDrvmaster(driver: nat) returns (errno: int)
      requires Valid()
      ensures errno == if Owns(model, model.cur, driver) then EXIT_SUCCESS else -EXIT_FAILURE
    {
      assert NodeOk(nodes, model.nodes, model.cur);
      var i := 0;
      while i < |currentTask.groups|
        invariant 0 <= i <= |currentTask.groups|
        invariant forall j :: 0 <= j < i ==> currentTask.groups[j] != driver
      {
        if currentTask.groups[i] == driver {
          return EXIT_SUCCESS;
        }
        i := i + 1;
      }
      return -EXIT_FAILURE;
    }

    /** drv_claim. */
    method DrvClaim(driver: nat) returns (errno: int)
      requires Valid()
      modifies currentTask`groups, driverTypes, `model
      ensures Valid() && model == ClaimStep(old(model), driver).0
      ensures errno == ClaimStep(old(model), driver).1
    {
      assert NodeOk(nodes, model.nodes, model.cur);
      if driver == 0 || driver - 1 >= DRIVERTYPE_COUNT {
        return -EXIT_FAILURE;
      }
      if driverTypes[driver - 1] {
        return -EDRVCLAIMED;
      }
      var owned := VerifyDrvmaster(driver);     // the same loop over the owned drivers
      if owned == EXIT_SUCCESS {
        return -EXIT_FAILURE;
      }
      if |currentTask.groups| == DRVMASTER_MAX_SLAVES - 1 {
        return -ENOBUFS;
      }
      if PPERM_DRVCLAIM !in currentTask.perm {
        return -EPERM;
      }
      Record(driver);
      return EXIT_SUCCESS;
    }

    /** The two stores of drv_claim. */
    method Record(driver: nat)
      requires Valid() && ClaimStep(model, driver).1 == EXIT_SUCCESS
      modifies currentTask`groups, driverTypes, `model
      ensures Valid() && model == ClaimStep(old(model), driver).0
    {
      ghost var k := model;
      HoldsIds(nodes, k.nodes);
      assert NodeOk(nodes, k.nodes, k.cur);
      Ring.ClaimKeepsShape(k, driver);
      model := ClaimStep(k, driver).0;
      driverTypes[driver - 1] := true;
      currentTask.groups := currentTask.groups + [driver];
      forall j | 0 <= j < |nodes| && j != k.cur ensures NodeOk(nodes, k.nodes, j) {
        assert old(NodeOk(nodes, k.nodes, j));
      }
      HoldsStored(nodes, k.nodes, k.cur, model.nodes[k.cur]);
    }

    /** The part of kill that takes a structure out of the ring. */
    static method Unlink(current: Process, ghost ns: seq<Process>, ghost values: seq<Proc>,
                         ghost ring: seq<nat>, ghost pos: nat)
      requires Holds(ns, values) && Linked(ns, ring) && 0 < pos < |ring| && current == ns[ring[pos]]
      requires current.prev != null && current.next != null
      modifies current.prev`next, current.next`prev
      ensures Holds(ns, values) && Linked(ns, RemoveAt(ring, pos))
      ensures current.next == old(current.next) && current.prev == ns[ring[pos - 1]]
    {
      HoldsIds(ns, values);
      assert PrevOk(ns, ring, pos) && NextOk(ns, ring, pos);
      current.prev.next := current.next;
      current.next.prev := current.prev;
      forall j | 0 <= j < |ring|
        ensures j != pos - 1 ==> NextOk(ns, ring, j)
        ensures j != pos + 1 ==> PrevOk(ns, ring, j)
      {
        assert old(NextOk(ns, ring, j) && PrevOk(ns, ring, j));
      }
      LinkedRemoved(ns, ring, pos);
      forall i | 0 <= i < |ns| ensures NodeOk(ns, values, i) {
        assert old(NodeOk(ns, values, i));
      }
    }

    /** exit, that is kill of current_task.  When the last assertion of kill fails the kernel
      halts, and the table is not used any more. */
    method Exit()
      requires Valid() && model.curNext.None?
      modifies this, nodes
      ensures model == ExitStep(old(model))
      ensures !model.halted ==> Valid()
    {
      ghost var k := model;
      assert NodeOk(nodes, model.nodes, model.cur) && NodeOk(nodes, model.nodes, model.ring[|model.ring| - 1]);
      var pid := currentTask.pid;
      if pid == 1 || pid < 0 || pid > queueHead.pid {
        return;
      }
      var current := LocateProc(pid);
      if current == null {
        return;
      }
      Kill(current);
    }

    /** kill, from the point where the structure has been located. */
    method Kill(current: Process)
      requires Valid() && model.curNext.None? && !ExitRefused(model)
      requires current == nodes[model.ring[Find(model, Cur(model).pid)]]
      modifies this, nodes
      ensures model == ExitStep(old(model))
      ensures !model.halted ==> Valid()
    {
      ghost var k, pos := model, Find(model, Cur(model).pid);
      ExitParts(k);
      KillAt(current, k, k.(ring := RemoveAt(k.ring, pos)), ExitStep(k), pos);
    }

    /** k1 is the state with the structure out of the ring, k2 the one after kill. */
    method KillAt(current: Process, ghost k: KState, ghost k1: KState, ghost k2: KState, ghost pos: nat)
      requires Valid() && model == k && ExitedTo(k, k1, k2, pos) && current == nodes[k.ring[pos]]
      modifies this, nodes
      ensures model == k2 && (!model.halted ==> Valid())
    {
      var pid := Detach(current, k, k1, pos);
      model := k1;
      Settle(pid, current, k1, k2);
    }

    /** The part of kill that changes the ring. */
    method Detach(current: Process, ghost k: KState, ghost k1: KState, ghost pos: nat) returns (pid: int)
      requires Valid() && model == k && 0 < pos < |k.ring| && current == nodes[k.ring[pos]]
      requires k1 == k.(ring := RemoveAt(k.ring, pos)) && RingOk(k1)
      modifies `queueHead, `nextPid, nodes
      ensures pid == Cur(k).pid
      ensures Holds(nodes, k1.nodes) && Linked(nodes, k1.ring)
      ensures current.next == nodes[k.ring[if pos + 1 == |k.ring| then 0 else pos + 1]]
      ensures pid != Head(k).pid ==> queueHead == nodes[k.ring[|k.ring| - 1]] && nextPid == k.nextPid
      ensures pid == Head(k).pid && pos + 1 == |k.ring| ==>
        queueHead == nodes[k.ring[pos - 1]] && nextPid == NextPidAfterHead(k.nextPid, PidAt(k, pos - 1))
    {
      assert NodeOk(nodes, k.nodes, k.cur) && NextOk(nodes, k.ring, pos) && PrevOk(nodes, k.ring, pos);
      HoldsIds(nodes, k.nodes);
      pid := currentTask.pid;
      Unlink(current, nodes, k.nodes, k.ring, pos);
      MoveHead(pid, current, k, k1, pos);
    }

    /** The end of kill: its assertion, and current_task left on the removed structure. */
    method Settle(pid: int, current: Process, ghost k1: KState, ghost k2: KState)
      requires model == k1 && RingOk(k1) && Holds(nodes, k1.nodes) && Linked(nodes, k1.ring) && queueBase == nodes[0]
      requires k2.halted == (Find(k1, pid) < |k1.ring|)
      requires !k2.halted ==>
        && Shape(k2) && k2.nodes == k1.nodes && k2.ring == k1.ring && k2.curNext.Some?
        && current == nodes[k2.cur] && current.next == nodes[k2.curNext.value]
        && queueHead == nodes[k2.ring[|k2.ring| - 1]] && nextPid == k2.nextPid
        && driverTypes[..] == k2.drivers
      modifies `currentTask, `model
      ensures model == k2 && (!model.halted ==> Valid())
    {
      var again := LocateProc(pid);
      model := k2;
      if again == null {
        currentTask := current;
      }
    }

    /** The part of kill that moves queue_head and next_pid.  (Unlinking does not touch either,
      so that both tests of the head's PID can be made here.) */
    method MoveHead(pid: int, current: Process, ghost k: KState, ghost k1: KState, ghost pos: nat)
      requires RingOk(k) && RingOk(k1) && k1.nodes == k.nodes && 0 < pos < |k.ring|
      requires k1.ring == RemoveAt(k.ring, pos) && Holds(nodes, k.nodes) && Linked(nodes, k1.ring)
      requires current == nodes[k.ring[pos]] && current.prev == nodes[k.ring[pos - 1]]
      requires queueHead == nodes[k.ring[|k.ring| - 1]] && nextPid == k.nextPid
      modifies `queueHead, `nextPid
      ensures pid != Head(k).pid ==> queueHead == old(queueHead) && nextPid == k.nextPid
      ensures pid == Head(k).pid && pos + 1 == |k.ring| ==>
        queueHead == nodes[k.ring[pos - 1]] && nextPid == NextPidAfterHead(k.nextPid, PidAt(k, pos - 1))
    {
      ghost var n := |k.ring|;
      assert NodeOk(nodes, k.nodes, k.ring[n - 1]) && NodeOk(nodes, k.nodes, k.ring[pos - 1]);
      if pid == queueHead.pid {
        nextPid := Wrap16(nextPid - 1);
      }
      if pid == queueHead.pid {
        if pos + 1 < n { assert PrevOk(nodes, k1.ring, n - 2); }
        queueHead := queueHead.prev;
        if nextPid > queueHead.pid {
          nextPid := Wrap16(nextPid - 1);
        }
      }
    }

    static ghost predicate ExitedTo(k: KState, k1: KState, k2: KState, pos: nat) {
      && RingOk(k) && 0 < pos < |k.ring| && pos == Find(k, Cur(k).pid)
      && k1 == k.(ring := RemoveAt(k.ring, pos)) && RingOk(k1)
      && k2.halted == (Find(k1, Cur(k).pid) < |k1.ring|)
      && (!k2.halted ==>
            && Shape(k2) && k.ring[pos] == k.cur == k2.cur && k2.nodes == k.nodes && k2.ring == k1.ring
            && k2.curNext == Some(k.ring[if pos + 1 == |k.ring| then 0 else pos + 1])
            && k2.drivers == k.drivers
            && (pos + 1 == |k.ring| <==> Cur(k).pid == Head(k).pid)
            && k2.nextPid == if pos + 1 == |k.ring| then NextPidAfterHead(k.nextPid, PidAt(k, pos - 1)) else k.nextPid)
    }

    /** The last search of kill finds a process exactly when its assertion fails. */
    static lemma SearchAgain(k: KState)
      requires Shape(k) && k.curNext.None? && !ExitRefused(k)
      ensures var pos := Find(k, Cur(k).pid);
        && 0 < pos < |k.ring|
        && var k1 := k.(ring := RemoveAt(k.ring, pos));
        RingOk(k1) && ExitHalts(k) == (Find(k1, Cur(k).pid) < |k1.ring|)
    {
      var pid, pos := Cur(k).pid, Find(k, Cur(k).pid);
      var k1 := k.(ring := RemoveAt(k.ring, pos));
      Ring.RemoveAtEntries(k.ring, pos);
      assert PidAt(k, 0) == 1;
      forall j | 0 <= j < |k1.ring| ensures PidAt(k1, j) == PidAt(k, if j < pos then j else j + 1) { }
      var again := FindFrom(k, pid, pos + 1);
      if again < |k.ring| { assert PidAt(k1, again - 1) == pid; }
    }

    static lemma ExitParts(k: KState)
      requires Shape(k) && k.curNext.None? && !ExitRefused(k)
      ensures var pos := Find(k, Cur(k).pid);
        0 < pos < |k.ring| && ExitedTo(k, k.(ring := RemoveAt(k.ring, pos)), ExitStep(k), pos)
    {
      SearchAgain(k);
      if !ExitHalts(k) {
        Ring.ExitRemovesCurrent(k);
        Ring.ExitKeepsShape(k);
      }
    }
  }
}
