/**
 * The Richards benchmark, as ported in richards-typed-octane.ts: a task
 * dispatcher that keeps task control blocks in a linked list and in a table
 * indexed by task id, and moves work packets between tasks along linked
 * queues.
 *
 * Each linked list of packets is paired with a ghost sequence of its nodes
 * (`Chain`); the list of control blocks carries its nodes in a ghost constant
 * fixed when each block is built, since a block's `link` never changes.
 * The port stubs out every state-bit operation (the setters assign the state
 * to itself and `isHeldOrSuspended` answers true); the model keeps those stubs.
 */
module Richards {
  import opened Wrappers

  const COUNT := 1000
  /** The counts a correct run of the original benchmark reaches. */
  const EXPECTED_QUEUE_COUNT := 2322
  const EXPECTED_HOLD_COUNT := 928

  const ID_IDLE := 0
  const ID_WORKER := 1
  const ID_HANDLER_A := 2
  const ID_HANDLER_B := 3
  const ID_DEVICE_A := 4
  const ID_DEVICE_B := 5
  const NUMBER_OF_IDS := 6

  const KIND_DEVICE := 0
  const KIND_WORK := 1

  const DATA_SIZE := 4

  const STATE_RUNNING: bv32 := 0x0000_0000
  const STATE_RUNNABLE: bv32 := 0x0000_0001
  const STATE_SUSPENDED: bv32 := 0x0000_0002
  const STATE_HELD: bv32 := 0x0000_0004
  const STATE_SUSPENDED_RUNNABLE: bv32 := STATE_SUSPENDED | STATE_RUNNABLE
  const STATE_NOT_HELD: bv32 := 0xFFFF_FFFB

  /** A task id (`natLT<NUMBER_OF_IDS>`). */
  type Id = i: int | 0 <= i < NUMBER_OF_IDS

  /** The scheduler's `currentId`: a task id, or -1 before any task has run. */
  type CurrentId = i: int | -1 <= i < NUMBER_OF_IDS

  // ---------------------------------------------------------------------------
  // Packets and their linked lists
  // ---------------------------------------------------------------------------

  /** A work packet; packets also form the linked work queues. */
  class Packet {
    var link: Packet?
    var id: Id
    var kind: int
    var a1: nat
    const a2: array<nat>

    constructor (link: Packet?, id: Id, kind: int, a1: nat)
      ensures this.link == link && this.id == id && this.kind == kind && this.a1 == a1
      ensures fresh(a2) && a2.Length == DATA_SIZE
    {
      this.a2 := new nat[DATA_SIZE](_ => 0);
      this.link := link;
      this.id := id;
      this.kind := kind;
      this.a1 := a1;
    }

    /**
     * `addTo(queue)`: detaches this packet, then appends it at the end of
     * `queue` and returns the queue's head, or returns this packet alone when
     * the queue is empty. A packet already on the queue cuts the queue at
     * itself and ends up linked to itself. Only `link` fields change, and only
     * this packet's and the last node's.
     */
    method AddTo(queue: Packet?, ghost nodes: seq<Packet>) returns (r: Packet)
      requires Chain(queue, nodes)
      modifies this`link, LastOr(nodes, this)`link
      ensures r == (if queue == null then this else queue)
      ensures this !in nodes ==> Chain(r, nodes + [this])
      ensures this in nodes ==> link == this && forall n :: n in nodes && n != this ==> n.link == old(n.link)
    {
      // the ghost index of this packet in the queue, if it is there
      ghost var k := 0;
      while k < |nodes| && nodes[k] != this
        invariant 0 <= k <= |nodes|
        invariant forall j :: 0 <= j < k ==> nodes[j] != this
      {
        k := k + 1;
      }
      ghost var prefix := if k < |nodes| then nodes[..k + 1] else nodes;
      link := null;
      assert Chain(queue, prefix);
      if queue == null {
        return this;
      }
      var next := queue;
      var peek := next.link;
      ghost var i := 0;
      while peek != null
        invariant Chain(queue, prefix)
        invariant 0 <= i < |prefix| && next == prefix[i] && peek == prefix[i].link
        decreases |prefix| - i
      {
        next := peek;
        peek := next.link;
        i := i + 1;
      }
      ChainAt(queue, prefix, i);
      if k < |nodes| {
        assert next == this;
      } else {
        assert next == LastOr(nodes, this);
      }
      ChainDistinct(queue, prefix);
      next.link := this;
      r := queue;
    }
  }

  /** The last of `nodes`, or `p` when there are none. */
  function LastOr(nodes: seq<Packet>, p: Packet): Packet {
    if |nodes| == 0 then p else nodes[|nodes| - 1]
  }

  /** The first of `nodes`, or null when there are none. */
  function HeadOf(nodes: seq<Packet>): Packet? {
    if |nodes| == 0 then null else nodes[0]
  }

  /** `nodes` are, in order, the packets reached from `head` along `link` up to a null link. */
  ghost predicate Chain(head: Packet?, nodes: seq<Packet>)
    reads nodes
  {
    head == HeadOf(nodes) &&
    (forall i :: 0 <= i < |nodes| - 1 ==> nodes[i].link == nodes[i + 1]) &&
    (|nodes| > 0 ==> nodes[|nodes| - 1].link == null)
  }

  /** The link of the node at `i`. */
  lemma ChainAt(head: Packet?, nodes: seq<Packet>, i: nat)
    requires Chain(head, nodes) && i < |nodes|
    ensures nodes[i].link == (if i + 1 < |nodes| then nodes[i + 1] else null)
  {
  }

  /** A packet list that ends at a null link visits no packet twice. */
  lemma {:induction false} ChainDistinctAt(head: Packet?, nodes: seq<Packet>, i: nat, j: nat)
    requires Chain(head, nodes) && i < j < |nodes|
    ensures nodes[i] != nodes[j]
    decreases |nodes| - j
  {
    assert nodes[i].link == nodes[i + 1];
    if j + 1 < |nodes| {
      assert nodes[j].link == nodes[j + 1];
      ChainDistinctAt(head, nodes, i + 1, j + 1);
    } else {
      assert nodes[j].link == null;
    }
  }

  lemma ChainDistinct(head: Packet?, nodes: seq<Packet>)
    requires Chain(head, nodes)
    ensures forall i, j :: 0 <= i < j < |nodes| ==> nodes[i] != nodes[j]
  {
    forall i, j | 0 <= i < j < |nodes| {
      ChainDistinctAt(head, nodes, i, j);
    }
  }

  /** Removing the head of a packet list leaves the list that starts at its link. */
  lemma ChainRest(head: Packet, nodes: seq<Packet>)
    requires Chain(head, nodes)
    ensures |nodes| > 0 && Chain(head.link, nodes[1..]) && head !in nodes[1..]
  {
    ChainDistinct(head, nodes);
  }

  /** Every packet of a family of queues. */
  ghost function Members(queues: seq<seq<Packet>>): set<Packet> {
    set i, k | 0 <= i < |queues| && 0 <= k < |queues[i]| :: queues[i][k]
  }

  /** Every node of every queue is a member. */
  lemma MemberAt(queues: seq<seq<Packet>>, i: nat, k: nat)
    requires i < |queues| && k < |queues[i]|
    ensures queues[i][k] in Members(queues)
  {
  }

  /** No packet is on two of the queues. */
  ghost predicate Disjoint(queues: seq<seq<Packet>>) {
    forall i, j, k :: 0 <= i < |queues| && 0 <= j < |queues| && i != j && 0 <= k < |queues[i]| ==>
      queues[i][k] !in queues[j]
  }

  /**
   * Taking the head packet off queue `id` leaves queues that are still
   * disjoint, hold only packets they held before, and no longer hold that packet.
   */
  lemma Dequeued(queues: seq<seq<Packet>>, id: nat, head: Packet)
    requires id < |queues| && Disjoint(queues) && Chain(head, queues[id])
    ensures head in Members(queues)
    ensures Disjoint(queues[id := queues[id][1..]])
    ensures head !in Members(queues[id := queues[id][1..]])
    ensures Members(queues[id := queues[id][1..]]) <= Members(queues)
    ensures Payloads(queues) ==> Payloads(queues[id := queues[id][1..]])
  {
    ChainRest(head, queues[id]);
    var rest := queues[id := queues[id][1..]];
    forall i, k | 0 <= i < |rest| && 0 <= k < |rest[i]|
      ensures rest[i][k] in Members(queues) && rest[i][k] != head
    {
      if i == id {
        assert rest[i][k] == queues[id][k + 1];
      } else {
        assert rest[i][k] == queues[i][k];
        assert head == queues[id][0];
      }
    }
    forall i, j, k | 0 <= i < |rest| && 0 <= j < |rest| && i != j && 0 <= k < |rest[i]|
      ensures rest[i][k] !in rest[j]
    {
      var n := if i == id then k + 1 else k;
      assert rest[i][k] == queues[i][n];
      assert forall m :: 0 <= m < |rest[j]| ==> rest[j][m] in queues[j];
    }
  }

  /** Every packet of the queues carries a payload of DATA_SIZE slots. */
  ghost predicate Payloads(queues: seq<seq<Packet>>) {
    forall i, k :: 0 <= i < |queues| && 0 <= k < |queues[i]| ==> queues[i][k].a2.Length == DATA_SIZE
  }

  /** The payload arrays of a set of packets. */
  ghost function PayloadsOf(ps: set<Packet>): set<array<nat>> {
    set p | p in ps :: p.a2
  }

  // ---------------------------------------------------------------------------
  // Task control blocks
  // ---------------------------------------------------------------------------

  /** The four kinds of task; each tags the task object a control block runs. */
  datatype Task =
    | Idle(idle: IdleTask)
    | Device(device: DeviceTask)
    | Worker(worker: WorkerTask)
    | Handler(handler: HandlerTask)

  /**
   * A task control block: a task, its priority, and its queue of packets.
   * `link`, `id`, `priority` and `task` are set by the constructor and never
   * reassigned.
   */
  class TaskControlBlock {
    const link: TaskControlBlock?
    const id: Id
    const priority: int
    var queue: Packet?
    const task: Task
    var state: bv32
    /** The blocks after this one along `link`, in order. */
    ghost const tail: seq<TaskControlBlock>

    /** `tail` lists exactly the blocks reached along `link`, each with its own `tail`. */
    ghost predicate Linked() {
      link == FirstOf(tail) &&
      forall i :: 0 <= i < |tail| ==> tail[i].tail == tail[i + 1..] && tail[i].link == FirstOf(tail[i + 1..])
    }

    /** A new block starts suspended, in front of the list `link`. */
    constructor (link: TaskControlBlock?, id: Id, priority: int, queue: Packet?, task: Task)
      requires link != null ==> link.Linked()
      ensures this.link == link && this.id == id && this.priority == priority
      ensures this.queue == queue && this.task == task && state == STATE_SUSPENDED
      ensures Linked()
    {
      this.link := link;
      this.id := id;
      this.priority := priority;
      this.queue := queue;
      this.task := task;
      this.tail := if link == null then [] else [link] + link.tail;
      this.state := STATE_SUSPENDED;
    }

    /** The scheduler that the block's task belongs to. */
    function Owner(): Scheduler {
      match task
      case Idle(t) => t.scheduler
      case Device(t) => t.scheduler
      case Worker(t) => t.scheduler
      case Handler(t) => t.scheduler
    }

    method SetRunning()
      modifies this`state
      ensures state == STATE_RUNNING
    {
      state := STATE_RUNNING;
    }

    /** Stubbed in the port: the state is assigned to itself. */
    method MarkAsNotHeld()
      ensures state == old(state)
    {
    }

    /** Stubbed in the port: the state is assigned to itself. */
    method MarkAsHeld()
      ensures state == old(state)
    {
    }

    /** Stubbed in the port: the state is assigned to itself. */
    method MarkAsSuspended()
      ensures state == old(state)
    {
    }

    /** Stubbed in the port: the state is assigned to itself. */
    method MarkAsRunnable()
      ensures state == old(state)
    {
    }

    /** Stubbed in the port: every block counts as held or suspended. */
    predicate IsHeldOrSuspended() {
      true
    }

    /**
     * `checkPriorityAdd(task, packet)`: puts `packet` on this block's queue.
     * On an empty queue the packet becomes the queue, and this block is to run
     * next iff its priority is strictly higher than `running`'s; on a
     * non-empty queue the packet is appended at the tail and `running` stays.
     */
    method CheckPriorityAdd(running: TaskControlBlock, packet: Packet, ghost nodes: seq<Packet>)
      returns (r: TaskControlBlock)
      requires Chain(queue, nodes)
      modifies this`queue, packet`link, LastOr(nodes, packet)`link
      ensures old(queue) == null ==>
        queue == packet && packet.link == old(packet.link) &&
        r == (if priority > running.priority then this else running)
      ensures old(queue) != null ==> queue == old(queue) && r == running
      ensures old(queue) != null && packet !in nodes ==> Chain(queue, nodes + [packet])
      ensures old(queue) != null ==> packet.link == (if packet in nodes then packet else null)
    {
      if queue == null {
        queue := packet;
        MarkAsRunnable();
        if priority > running.priority {
          return this;
        }
      } else {
        queue := packet.AddTo(queue, nodes);
      }
      r := running;
    }
    /** The object behind the block's task. */
    function TaskObject(): object {
      match task
      case Idle(t) => t
      case Device(t) => t
      case Worker(t) => t
      case Handler(t) => t
    }

    /** The head packet leaves the queue, which is left at its successor. */
    method TakeHead(ghost queues: seq<seq<Packet>>)
      requires Owner().Valid() && Owner().SlotsMatch() && Owner().blocks[id] == this
      requires Owner().QueuesAre(queues) && Disjoint(queues) && Payloads(queues) && queue != null
      modifies this`queue
      ensures queue == old(queue.link)
      ensures
        var rest := queues[id := queues[id][1..]];
        Owner().QueuesAre(rest) && Disjoint(rest) && Payloads(rest) &&
        old(queue) in Members(queues) && old(queue) !in Members(rest) && Members(rest) <= Members(queues)
    {
      Dequeued(queues, id, queue);
      queue := queue.link;
    }

    /**
     * `run()`: takes the head packet off the queue, an error when the queue
     * is empty, and runs the task on that packet. For the idle and the device
     * task the queue is left at the packet's successor; so it is for the
     * worker when it sends to another block.
     */
    method Run(ghost queues: seq<seq<Packet>>) returns (r: Result<TaskControlBlock?>)
      requires Owner().Valid() && Owner().SlotsMatch() && Owner().blocks[id] == this
      requires Owner().QueuesAre(queues) && Disjoint(queues) && Payloads(queues)
      requires task.Handler? ==> task.handler.Valid() && task.handler.Apart(queues)
      modifies this`queue, TaskObject(), Owner()`holdCount, Owner()`queueCount, Owner().BlockSet()
      modifies Members(queues), PayloadsOf(Members(queues))
      modifies if task.Handler? then set n | n in task.handler.works + task.handler.devices else {}
      ensures old(queue) == null ==> r == Err(IllegalState) && queue == null
      ensures old(queue) != null && (task.Idle? || task.Device?) ==> queue == old(queue.link)
      ensures old(queue) != null && task.Idle? ==>
        r == (if old(task.idle.count) == 1 then old(Owner().HoldResult()) else old(Owner().ReleaseResult(ID_DEVICE_A)))
      ensures old(queue) != null && task.Device? ==> task.device.v1 == old(queue) && r == old(Owner().HoldResult())
      ensures old(queue) != null && task.Worker? && Toggle(old(task.worker.v1)) != id ==>
        queue == old(queue.link) && r == old(Owner().QueueResult(Toggle(task.worker.v1)))
    {
      var packet := queue;
      if packet == null {
        return Err(IllegalState);
      }
      match task
      case Idle(t) =>
        TakeHead(queues);
        r := t.Run(packet);
      case Device(t) =>
        TakeHead(queues);
        r := t.Run(packet, queues[id := queues[id][1..]]);
      case Worker(t) =>
        r := RunWorker(t, queues);
      case Handler(t) =>
        r := RunHandler(t, queues);
    }

    /** `run()` of a worker block on a non-empty queue. */
    method RunWorker(t: WorkerTask, ghost queues: seq<seq<Packet>>) returns (r: Result<TaskControlBlock?>)
      requires task == Worker(t) && queue != null
      requires Owner().Valid() && Owner().SlotsMatch() && Owner().blocks[id] == this
      requires Owner().QueuesAre(queues) && Disjoint(queues) && Payloads(queues)
      modifies this`queue, t, Owner()`queueCount, Owner().BlockSet()
      modifies Members(queues), PayloadsOf(Members(queues))
      ensures Toggle(old(t.v1)) != id ==> queue == old(queue.link) && r == old(Owner().QueueResult(Toggle(t.v1)))
    {
      var packet := queue;
      ghost var s := Owner();
      ghost var routed := s.QueueResult(Toggle(t.v1));
      TakeHead(queues);
      assert Toggle(t.v1) != id ==> s.blocks[Toggle(t.v1)] != this && routed == s.QueueResult(Toggle(t.v1));
      r := t.Run(packet, queues[id := queues[id][1..]]);
    }

    /** `run()` of a handler block on a non-empty queue. */
    method RunHandler(t: HandlerTask, ghost queues: seq<seq<Packet>>) returns (r: Result<TaskControlBlock?>)
      requires task == Handler(t) && queue != null && t.Valid() && t.Apart(queues)
      requires Owner().Valid() && Owner().SlotsMatch() && Owner().blocks[id] == this
      requires Owner().QueuesAre(queues) && Disjoint(queues) && Payloads(queues)
      modifies this`queue, t, Owner()`queueCount, Owner().BlockSet()
      modifies Members(queues), set n | n in t.works + t.devices
      ensures t.Valid()
      ensures
        var w, d := old(t.WorksWith(queue)), old(t.DevicesWith(queue));
        var rest := queues[id := queues[id][1..]];
        if w == [] || (old(w[0].a1) < DATA_SIZE && d == []) then
          t.works == w && t.devices == d && r == t.scheduler.SuspendResult()
        else if old(w[0].a1) < DATA_SIZE then
          t.works == w && t.devices == d[1..] &&
          (old(d[0].id) != id ==> r == old(t.scheduler.QueueResult(d[0].id))) &&
          t.scheduler.QueuesAre(t.scheduler.Queued(rest, old(d[0].id), d[0], r))
        else
          t.works == w[1..] && t.devices == d &&
          (old(w[0].id) != id ==> r == old(t.scheduler.QueueResult(w[0].id))) &&
          t.scheduler.QueuesAre(t.scheduler.Queued(rest, old(w[0].id), w[0], r))
    {
      var packet := queue;
      ghost var w, d := t.WorksWith(packet), t.DevicesWith(packet);
      ghost var count := if w == [] then 0 else w[0].a1;
      ghost var s := Owner();
      ghost var forwarded := if w == [] || d == [] then Ok(null) else s.QueueResult(d[0].id);
      ghost var retired := if w == [] then Ok(null) else s.QueueResult(w[0].id);
      TakeHead(queues);
      assert t.WorksWith(packet) == w && t.DevicesWith(packet) == d && (w != [] ==> w[0].a1 == count);
      assert w != [] && d != [] && d[0].id != id ==> s.blocks[d[0].id] != this && forwarded == s.QueueResult(d[0].id);
      assert w != [] && w[0].id != id ==> s.blocks[w[0].id] != this && retired == s.QueueResult(w[0].id);
      r := t.Run(packet, queues[id := queues[id][1..]]);
    }
  }

  /** The first of `blocks`, or null when there are none. */
  function FirstOf(blocks: seq<TaskControlBlock>): TaskControlBlock? {
    if |blocks| == 0 then null else blocks[0]
  }

  /** A block with a well-formed tail hands a well-formed, shorter tail to the next block. */
  lemma LinkedNext(t: TaskControlBlock)
    requires t.Linked() && t.link != null
    ensures t.link.Linked() && |t.link.tail| < |t.tail|
  {
    var n := t.link;
    assert n == t.tail[0] && n.tail == t.tail[1..];
    forall i | 0 <= i < |n.tail|
      ensures n.tail[i].tail == n.tail[i + 1..] && n.tail[i].link == FirstOf(n.tail[i + 1..])
    {
      assert n.tail[i] == t.tail[i + 1];
      assert n.tail[i + 1..] == t.tail[i + 2..];
    }
  }

  // ---------------------------------------------------------------------------
  // The scheduler
  // ---------------------------------------------------------------------------

  /**
   * The scheduler: the counters, the table of blocks by id, the list of all
   * blocks (most recently added first), and the block and id being run.
   * `blocks` is set by the constructor and never reassigned.
   */
  class Scheduler {
    var queueCount: int
    var holdCount: int
    const blocks: array<TaskControlBlock?>
    var list: TaskControlBlock?
    var currentTcb: TaskControlBlock?
    var currentId: CurrentId

    /** The table has one slot per task id. */
    ghost predicate Valid() {
      blocks.Length == NUMBER_OF_IDS
    }

    /** Every block sits in the slot of its own id. */
    ghost predicate SlotsMatch()
      reads blocks
    {
      forall i :: 0 <= i < blocks.Length && blocks[i] != null ==> blocks[i].id == i
    }

    ghost predicate ListLinked()
      reads this
    {
      list != null ==> list.Linked()
    }

    /** The blocks in the table. */
    ghost function BlockSet(): set<TaskControlBlock>
      reads blocks
    {
      set i | 0 <= i < blocks.Length && blocks[i] != null :: blocks[i] as TaskControlBlock
    }

    /** `queues[i]` lists the packets queued at the block in slot `i`. */
    ghost predicate QueuesAre(queues: seq<seq<Packet>>)
      reads blocks, BlockSet(), Members(queues)
    {
      |queues| == blocks.Length &&
      forall i :: 0 <= i < blocks.Length && blocks[i] != null ==> Chain(blocks[i].queue, queues[i])
    }

    constructor (queueCount: int, holdCount: int, blocks: array<TaskControlBlock?>,
                 list: TaskControlBlock?, currentTcb: TaskControlBlock?, currentId: CurrentId)
      requires blocks.Length == NUMBER_OF_IDS
      ensures Valid()
      ensures this.queueCount == queueCount && this.holdCount == holdCount && this.blocks == blocks
      ensures this.list == list && this.currentTcb == currentTcb && this.currentId == currentId
    {
      this.queueCount := queueCount;
      this.holdCount := holdCount;
      this.blocks := blocks;
      this.list := list;
      this.currentTcb := currentTcb;
      this.currentId := currentId;
    }

    /** What `holdCurrent` returns. */
    ghost function HoldResult(): Result<TaskControlBlock?>
      reads this
    {
      if currentTcb == null then Err(IllegalState) else Ok(currentTcb.link)
    }

    /** What `suspendCurrent` returns. */
    ghost function SuspendResult(): Result<TaskControlBlock?>
      reads this
    {
      if currentTcb == null then Err(IllegalState) else Ok(currentTcb)
    }

    /** What `release(id)` returns. */
    ghost function ReleaseResult(id: Id): Result<TaskControlBlock?>
      requires Valid()
      reads this, blocks
    {
      var t := blocks[id];
      if t == null then Ok(null)
      else if currentTcb == null then Err(IllegalState)
      else if t.priority > currentTcb.priority then Ok(t)
      else Ok(currentTcb)
    }

    /** What `queue(packet)` returns for a packet bound for task `id`. */
    ghost function QueueResult(id: Id): Result<TaskControlBlock?>
      requires Valid()
      reads this, blocks, blocks[id]
    {
      var t := blocks[id];
      if t == null then Ok(null)
      else if currentId == -1 || currentTcb == null then Err(IllegalState)
      else if t.queue == null && t.priority > currentTcb.priority then Ok(t)
      else Ok(currentTcb)
    }

    /**
     * `release` yields null exactly for an empty slot and fails exactly when
     * there is no current block; otherwise it picks the released or the
     * current block, whichever has the higher priority, the current one on a tie.
     */
    lemma ReleasePicksHigherPriority(id: Id)
      requires Valid()
      ensures ReleaseResult(id) == Ok(null) <==> blocks[id] == null
      ensures ReleaseResult(id).Err? <==> blocks[id] != null && currentTcb == null
      ensures ReleaseResult(id).Ok? && ReleaseResult(id).value != null ==>
        var next := ReleaseResult(id).value;
        (next == blocks[id] || next == currentTcb) &&
        next.priority >= blocks[id].priority && next.priority >= currentTcb.priority &&
        (next != currentTcb ==> next.priority > currentTcb.priority)
    {
    }

    /**
     * `queue` yields null exactly for an empty slot, fails when no task has
     * run or there is no current block, and otherwise switches away from the
     * current block only to a destination that was idle (empty queue) and has
     * strictly higher priority.
     */
    lemma QueueSwitchesOnlyUpward(id: Id)
      requires Valid()
      ensures QueueResult(id) == Ok(null) <==> blocks[id] == null
      ensures QueueResult(id).Err? <==> blocks[id] != null && (currentId == -1 || currentTcb == null)
      ensures QueueResult(id).Ok? && QueueResult(id).value != null && QueueResult(id).value != currentTcb ==>
        QueueResult(id).value == blocks[id] && blocks[id].queue == null && blocks[id].priority > currentTcb.priority
    {
    }

    /** The queues after `queue` returned `r` for `packet`, bound for task `id`. */
    ghost function Queued(queues: seq<seq<Packet>>, id: Id, packet: Packet, r: Result<TaskControlBlock?>): seq<seq<Packet>>
      requires Valid() && |queues| == NUMBER_OF_IDS
      reads blocks
    {
      if r.Ok? && blocks[id] != null then queues[id := queues[id] + [packet]] else queues
    }

    /**
     * `addTask(id, priority, queue, task)`: a new suspended block, linked in
     * front of the list, becomes the list, the current block and slot `id`.
     */
    method AddTask(id: Id, priority: int, queue: Packet?, task: Task)
      requires Valid() && ListLinked()
      modifies this`list, this`currentTcb, blocks
      ensures Valid() && ListLinked()
      ensures currentTcb != null && fresh(currentTcb) && list == currentTcb && blocks[id] == currentTcb
      ensures currentTcb.link == old(list) && currentTcb.id == id && currentTcb.priority == priority
      ensures currentTcb.queue == queue && currentTcb.task == task && currentTcb.state == STATE_SUSPENDED
      ensures forall i :: 0 <= i < NUMBER_OF_IDS && i != id ==> blocks[i] == old(blocks[i])
      ensures old(SlotsMatch()) ==> SlotsMatch()
    {
      currentTcb := new TaskControlBlock(list, id, priority, queue, task);
      list := currentTcb;
      blocks[id] := currentTcb;
    }

    /** `addRunningTask`: `addTask`, then the new block is marked as running. */
    method AddRunningTask(id: Id, priority: int, queue: Packet?, task: Task)
      requires Valid() && ListLinked()
      modifies this`list, this`currentTcb, blocks
      ensures Valid() && ListLinked()
      ensures currentTcb != null && fresh(currentTcb) && list == currentTcb && blocks[id] == currentTcb
      ensures currentTcb.link == old(list) && currentTcb.id == id && currentTcb.priority == priority
      ensures currentTcb.queue == queue && currentTcb.task == task && currentTcb.state == STATE_RUNNING
      ensures forall i :: 0 <= i < NUMBER_OF_IDS && i != id ==> blocks[i] == old(blocks[i])
      ensures old(SlotsMatch()) ==> SlotsMatch()
    {
      AddTask(id, priority, queue, task);
      // `addTask` has just set `currentTcb`, so the port's null check never throws
      currentTcb.SetRunning();
    }

    /** `addIdleTask`: a running idle task with seed 1 that is to run `count` times. */
    method AddIdleTask(id: Id, priority: int, queue: Packet?, count: int)
      requires Valid() && ListLinked()
      modifies this`list, this`currentTcb, blocks
      ensures Valid() && ListLinked()
      ensures currentTcb != null && fresh(currentTcb) && list == currentTcb && blocks[id] == currentTcb
      ensures currentTcb.link == old(list) && currentTcb.id == id && currentTcb.priority == priority
      ensures currentTcb.queue == queue && currentTcb.state == STATE_RUNNING
      ensures currentTcb.task.Idle? && fresh(currentTcb.task.idle)
      ensures currentTcb.task.idle.scheduler == this
      ensures currentTcb.task.idle.v1 == 1 && currentTcb.task.idle.count == count
      ensures forall i :: 0 <= i < NUMBER_OF_IDS && i != id ==> blocks[i] == old(blocks[i])
      ensures old(SlotsMatch()) ==> SlotsMatch()
    {
      var t := new IdleTask(this, 0x0000_0001, count);
      AddRunningTask(id, priority, queue, Idle(t));
    }

    /** `addWorkerTask`: a suspended worker that first sends to handler A. */
    method AddWorkerTask(id: Id, priority: int, queue: Packet?)
      requires Valid() && ListLinked()
      modifies this`list, this`currentTcb, blocks
      ensures Valid() && ListLinked()
      ensures currentTcb != null && fresh(currentTcb) && list == currentTcb && blocks[id] == currentTcb
      ensures currentTcb.link == old(list) && currentTcb.id == id && currentTcb.priority == priority
      ensures currentTcb.queue == queue && currentTcb.state == STATE_SUSPENDED
      ensures currentTcb.task.Worker? && fresh(currentTcb.task.worker)
      ensures currentTcb.task.worker.scheduler == this
      ensures currentTcb.task.worker.v1 == ID_HANDLER_A && currentTcb.task.worker.v2 == 0
      ensures forall i :: 0 <= i < NUMBER_OF_IDS && i != id ==> blocks[i] == old(blocks[i])
      ensures old(SlotsMatch()) ==> SlotsMatch()
    {
      var t := new WorkerTask(this, ID_HANDLER_A, 0);
      AddTask(id, priority, queue, Worker(t));
    }

    /** `addHandlerTask`: a suspended handler with both of its lists empty. */
    method AddHandlerTask(id: Id, priority: int, queue: Packet?)
      requires Valid() && ListLinked()
      modifies this`list, this`currentTcb, blocks
      ensures Valid() && ListLinked()
      ensures currentTcb != null && fresh(currentTcb) && list == currentTcb && blocks[id] == currentTcb
      ensures currentTcb.link == old(list) && currentTcb.id == id && currentTcb.priority == priority
      ensures currentTcb.queue == queue && currentTcb.state == STATE_SUSPENDED
      ensures currentTcb.task.Handler? && fresh(currentTcb.task.handler)
      ensures currentTcb.task.handler.scheduler == this
      ensures currentTcb.task.handler.v1 == null && currentTcb.task.handler.v2 == null
      ensures currentTcb.task.handler.Valid()
      ensures forall i :: 0 <= i < NUMBER_OF_IDS && i != id ==> blocks[i] == old(blocks[i])
      ensures old(SlotsMatch()) ==> SlotsMatch()
    {
      var t := new HandlerTask(this, null, null, [], []);
      AddTask(id, priority, queue, Handler(t));
    }

    /** `addDeviceTask`: a suspended device task holding no packet. */
    method AddDeviceTask(id: Id, priority: int, queue: Packet?)
      requires Valid() && ListLinked()
      modifies this`list, this`currentTcb, blocks
      ensures Valid() && ListLinked()
      ensures currentTcb != null && fresh(currentTcb) && list == currentTcb && blocks[id] == currentTcb
      ensures currentTcb.link == old(list) && currentTcb.id == id && currentTcb.priority == priority
      ensures currentTcb.queue == queue && currentTcb.state == STATE_SUSPENDED
      ensures currentTcb.task.Device? && fresh(currentTcb.task.device)
      ensures currentTcb.task.device.scheduler == this && currentTcb.task.device.v1 == null
      ensures forall i :: 0 <= i < NUMBER_OF_IDS && i != id ==> blocks[i] == old(blocks[i])
      ensures old(SlotsMatch()) ==> SlotsMatch()
    {
      var t := new DeviceTask(this, null);
      AddTask(id, priority, queue, Device(t));
    }

    /**
     * `schedule()`: starting from the head of the list, runs each block that
     * is neither held nor suspended. With the ported stub every block counts
     * as held or suspended, so the loop only follows `link` to the end of the
     * list: no task runs and only `currentTcb` changes, ending null.
     */
    method Schedule()
      requires ListLinked()
      modifies this`currentTcb
      ensures currentTcb == null
      ensures queueCount == old(queueCount) && holdCount == old(holdCount) && currentId == old(currentId)
    {
      currentTcb := list;
      var current := currentTcb;
      while current != null
        invariant current == currentTcb
        invariant current != null ==> current.Linked()
        decreases if current == null then 0 else |current.tail| + 1
      {
        if current.IsHeldOrSuspended() {
          if current.link != null {
            LinkedNext(current);
          }
          currentTcb := current.link;
        } else {
          // unreachable: the stub answers true for every block
          assert false;
        }
        current := currentTcb;
      }
    }

    /**
     * `release(id)`: an empty slot gives back null; otherwise, with a current
     * block, the released block is marked as not held (a stub) and whichever
     * of it and the current block has the strictly higher priority is next,
     * the current block on a tie.
     */
    method Release(id: Id) returns (r: Result<TaskControlBlock?>)
      requires Valid()
      ensures r == ReleaseResult(id)
    {
      var tcb := blocks[id];
      if tcb == null {
        return Ok(tcb);
      }
      var current := currentTcb;
      if current == null {
        return Err(IllegalState);
      }
      tcb.MarkAsNotHeld();
      if tcb.priority > current.priority {
        return Ok(tcb);
      } else {
        return Ok(current);
      }
    }

    /** `holdCurrent()`: counts one hold and moves on to the block after the current one. */
    method HoldCurrent() returns (r: Result<TaskControlBlock?>)
      modifies this`holdCount
      ensures r == HoldResult()
      ensures holdCount == old(holdCount) + (if currentTcb == null then 0 else 1)
    {
      var current := currentTcb;
      if current == null {
        return Err(IllegalState);
      }
      holdCount := holdCount + 1;
      current.MarkAsHeld();
      r := Ok(current.link);
    }

    /** `suspendCurrent()`: the current block stays the one to run. */
    method SuspendCurrent() returns (r: Result<TaskControlBlock?>)
      ensures r == SuspendResult()
    {
      var current := currentTcb;
      if current == null {
        return Err(IllegalState);
      }
      current.MarkAsSuspended();
      r := Ok(current);
    }

    /**
     * `queue(packet)`: with no block for `packet.id` nothing happens and null
     * is returned. Otherwise one queueing is counted and the packet is
     * detached; it is then an error if no task has run yet; otherwise the
     * packet is stamped with the current id, and, if there is a current block,
     * added to the destination's queue with the priority check.
     */
    method Queue(packet: Packet, ghost queues: seq<seq<Packet>>) returns (r: Result<TaskControlBlock?>)
      requires Valid() && SlotsMatch() && QueuesAre(queues) && Disjoint(queues)
      requires packet !in Members(queues)
      modifies this`queueCount, packet`link, packet`id, blocks[packet.id]
      modifies LastOr(queues[packet.id], packet)`link
      ensures r == old(QueueResult(packet.id))
      ensures old(blocks[packet.id]) == null ==>
        queueCount == old(queueCount) && packet.link == old(packet.link) && packet.id == old(packet.id)
      ensures old(blocks[packet.id]) != null ==>
        queueCount == old(queueCount) + 1 && packet.link == null &&
        packet.id == (if old(currentId) == -1 then old(packet.id) else old(currentId))
      ensures QueuesAre(Queued(queues, old(packet.id), packet, r)) && Disjoint(Queued(queues, old(packet.id), packet, r))
    {
      var t := blocks[packet.id];
      if t == null {
        return Ok(t);
      }
      queueCount := queueCount + 1;
      packet.link := null;
      assert QueuesAre(queues);
      if currentId == -1 {
        return Err(IllegalState);
      }
      ghost var target := packet.id;
      packet.id := currentId;
      var current := currentTcb;
      if current == null {
        return Err(IllegalState);
      }
      var next := Enqueue(t, current, packet, queues, target);
      r := Ok(next);
      QueuedKeepsOthers(queues, target, packet);
    }

    /**
     * The last step of `queue`: `packet` joins the queue of block `t` (slot
     * `target`) through the priority check; every other block's queue keeps
     * its nodes.
     */
    method Enqueue(t: TaskControlBlock, current: TaskControlBlock, packet: Packet,
                   ghost queues: seq<seq<Packet>>, ghost target: Id) returns (next: TaskControlBlock)
      requires Valid() && SlotsMatch() && QueuesAre(queues) && Disjoint(queues)
      requires packet !in Members(queues) && packet.link == null && blocks[target] == t
      modifies t`queue, packet`link, LastOr(queues[target], packet)`link
      ensures next == (if old(t.queue) == null && t.priority > current.priority then t else current)
      ensures QueuesAre(queues[target := queues[target] + [packet]])
    {
      assert forall k :: 0 <= k < |queues[target]| ==> queues[target][k] in Members(queues);
      ghost var last := LastOr(queues[target], packet);
      next := t.CheckPriorityAdd(current, packet, queues[target]);
      forall i | 0 <= i < blocks.Length && blocks[i] != null && i != target
        ensures Chain(blocks[i].queue, queues[i])
      {
        assert blocks[i] != t;
        assert old(Chain(blocks[i].queue, queues[i]));
        forall k | 0 <= k < |queues[i]|
          ensures queues[i][k].link == old(queues[i][k].link)
        {
          MemberAt(queues, i, k);
          if |queues[target]| > 0 {
            assert last == queues[target][|queues[target]| - 1];
          }
        }
      }
    }

    lemma QueuedKeepsOthers(queues: seq<seq<Packet>>, target: Id, packet: Packet)
      requires Valid() && |queues| == NUMBER_OF_IDS && Disjoint(queues) && packet !in Members(queues)
      ensures Disjoint(queues[target := queues[target] + [packet]])
    {
    }
  }

  // ---------------------------------------------------------------------------
  // The tasks
  // ---------------------------------------------------------------------------

  /** `count`: how many more times the idle task runs before it holds itself. */
  class IdleTask {
    const scheduler: Scheduler
    var v1: bv32
    var count: int

    constructor (scheduler: Scheduler, v1: bv32, count: int)
      ensures this.scheduler == scheduler && this.v1 == v1 && this.count == count
    {
      this.scheduler := scheduler;
      this.v1 := v1;
      this.count := count;
    }

    /**
     * `run(packet)`: counts down; at zero it holds the current block,
     * otherwise it releases device A (the port drops the seed-driven choice
     * between the two devices).
     */
    method Run(packet: Packet?) returns (r: Result<TaskControlBlock?>)
      requires scheduler.Valid()
      modifies this`count, scheduler`holdCount
      ensures count == old(count) - 1 && v1 == old(v1)
      ensures count == 0 ==>
        r == scheduler.HoldResult() &&
        scheduler.holdCount == old(scheduler.holdCount) + (if scheduler.currentTcb == null then 0 else 1)
      ensures count != 0 ==> r == scheduler.ReleaseResult(ID_DEVICE_A) && scheduler.holdCount == old(scheduler.holdCount)
    {
      count := count - 1;
      if count == 0 {
        r := scheduler.HoldCurrent();
        return;
      }
      r := scheduler.Release(ID_DEVICE_A);
    }
  }

  /** `v1`: the packet the device task holds, if any. */
  class DeviceTask {
    const scheduler: Scheduler
    var v1: Packet?

    constructor (scheduler: Scheduler, v1: Packet?)
      ensures this.scheduler == scheduler && this.v1 == v1
    {
      this.scheduler := scheduler;
      this.v1 := v1;
    }

    /**
     * `run(packet)`: given a packet, keeps it and holds the current block.
     * Without one, it suspends when it holds nothing, and otherwise sends the
     * packet it holds back through `queue`.
     */
    method Run(packet: Packet?, ghost queues: seq<seq<Packet>>) returns (r: Result<TaskControlBlock?>)
      requires scheduler.Valid()
      requires packet == null && v1 != null ==>
        scheduler.SlotsMatch() && scheduler.QueuesAre(queues) && Disjoint(queues) && v1 !in Members(queues)
      modifies this`v1, scheduler`holdCount, scheduler`queueCount
      modifies if packet == null && v1 != null then {v1, scheduler.blocks[v1.id]} else {}
      modifies if packet == null && v1 != null && |queues| == NUMBER_OF_IDS then set n | n in queues[v1.id] else {}
      ensures packet != null ==>
        v1 == packet && r == scheduler.HoldResult() &&
        scheduler.holdCount == old(scheduler.holdCount) + (if scheduler.currentTcb == null then 0 else 1)
      ensures packet == null && old(v1) == null ==> v1 == null && r == scheduler.SuspendResult()
      ensures packet == null && old(v1) != null ==>
        v1 == null && r == old(scheduler.QueueResult(v1.id)) &&
        scheduler.QueuesAre(scheduler.Queued(queues, old(v1.id), old(v1), r))
    {
      if packet == null {
        var held := v1;
        if held == null {
          r := scheduler.SuspendCurrent();
          return;
        }
        v1 := null;
        r := scheduler.Queue(held, queues);
      } else {
        v1 := packet;
        r := scheduler.HoldCurrent();
      }
    }
  }

  /** The worker's payload counter step: `v2 + 1`, wrapping from 27 back to 1. */
  function NextCounter(v: nat): nat {
    if v + 1 > 26 then 1 else v + 1
  }

  /** The counter after `n` steps from `v`. */
  function Counter(v: nat, n: nat): nat {
    if n == 0 then v else NextCounter(Counter(v, n - 1))
  }

  /** After at least one step the counter lies in [1, 26]. */
  lemma CounterInRange(v: nat, n: nat)
    requires n >= 1
    ensures 1 <= Counter(v, n) <= 26
  {
  }

  /** From a value in [0, 26], the counter cycles through 1..26: step `n` gives (v + n - 1) mod 26 + 1. */
  lemma {:induction false} CounterCycles(v: nat, n: nat)
    requires v <= 26 && n >= 1
    ensures Counter(v, n) == (v + n - 1) % 26 + 1
  {
    if n > 1 {
      CounterCycles(v, n - 1);
    }
  }

  /** The handler the worker sends to next. */
  function Toggle(v: Id): (r: Id)
    ensures r == ID_HANDLER_A || r == ID_HANDLER_B
    ensures r != v || (v != ID_HANDLER_A && v != ID_HANDLER_B)
  {
    if v == ID_HANDLER_A then ID_HANDLER_B else ID_HANDLER_A
  }

  /** Toggling twice from a handler id comes back to it. */
  lemma ToggleTwice(v: Id)
    requires v == ID_HANDLER_A || v == ID_HANDLER_B
    ensures Toggle(Toggle(v)) == v
  {
  }

  /** `v1`: the handler to send to next; `v2`: the payload counter. */
  class WorkerTask {
    const scheduler: Scheduler
    var v1: Id
    var v2: nat

    constructor (scheduler: Scheduler, v1: Id, v2: nat)
      ensures this.scheduler == scheduler && this.v1 == v1 && this.v2 == v2
    {
      this.scheduler := scheduler;
      this.v1 := v1;
      this.v2 := v2;
    }

    /**
     * `run(packet)`: without a packet it suspends. Otherwise it switches to
     * the other handler, addresses the packet to it, resets `a1`, fills the
     * payload with the next DATA_SIZE counter values and sends the packet
     * through `queue`.
     */
    method Run(packet: Packet?, ghost queues: seq<seq<Packet>>) returns (r: Result<TaskControlBlock?>)
      requires scheduler.Valid()
      requires packet != null ==>
        packet.a2.Length == DATA_SIZE && scheduler.SlotsMatch() && scheduler.QueuesAre(queues) &&
        Disjoint(queues) && packet !in Members(queues)
      modifies this, scheduler`queueCount, scheduler.blocks[Toggle(v1)]
      modifies if packet == null then {} else {packet, packet.a2}
      modifies if packet == null || |queues| != NUMBER_OF_IDS then {} else set n | n in queues[Toggle(v1)]
      ensures packet == null ==> v1 == old(v1) && v2 == old(v2) && r == scheduler.SuspendResult()
      ensures packet != null ==>
        v1 == Toggle(old(v1)) && packet.a1 == 0 && v2 == Counter(old(v2), DATA_SIZE) &&
        (forall i :: 0 <= i < DATA_SIZE ==> packet.a2[i] == Counter(old(v2), i + 1)) &&
        r == old(scheduler.QueueResult(Toggle(v1))) &&
        scheduler.QueuesAre(scheduler.Queued(queues, v1, packet, r))
      ensures packet != null ==> 1 <= v2 <= 26 && forall i :: 0 <= i < DATA_SIZE ==> 1 <= packet.a2[i] <= 26
    {
      if packet == null {
        r := scheduler.SuspendCurrent();
        return;
      }
      if v1 == ID_HANDLER_A {
        v1 := ID_HANDLER_B;
      } else {
        v1 := ID_HANDLER_A;
      }
      packet.id := v1;
      packet.a1 := 0;
      FillPayload(packet);
      r := scheduler.Queue(packet, queues);
    }

    /** The payload loop of `run`: each slot gets the next value of the counter `v2`. */
    method FillPayload(packet: Packet)
      requires packet.a2.Length == DATA_SIZE
      modifies this`v2, packet.a2
      ensures v2 == Counter(old(v2), DATA_SIZE) && 1 <= v2 <= 26
      ensures forall i :: 0 <= i < DATA_SIZE ==> packet.a2[i] == Counter(old(v2), i + 1) && 1 <= packet.a2[i] <= 26
    {
      ghost var start := v2;
      for i := 0 to DATA_SIZE
        invariant v2 == Counter(start, i)
        invariant forall j :: 0 <= j < i ==> packet.a2[j] == Counter(start, j + 1)
      {
        v2 := v2 + 1;
        if v2 > 26 {
          v2 := 1;
        }
        packet.a2[i] := v2;
      }
      forall i | 0 <= i < DATA_SIZE
        ensures 1 <= packet.a2[i] <= 26
      {
        CounterInRange(start, i + 1);
      }
      CounterInRange(start, DATA_SIZE);
    }
  }

  /** `v1`: the handler's list of work packets; `v2`: its list of device packets. */
  class HandlerTask {
    const scheduler: Scheduler
    var v1: Packet?
    var v2: Packet?
    ghost var works: seq<Packet>
    ghost var devices: seq<Packet>

    /** Both lists are well formed and share no packet. */
    ghost predicate Valid()
      reads this, works, devices
    {
      Chain(v1, works) && Chain(v2, devices) && forall k :: 0 <= k < |works| ==> works[k] !in devices
    }

    constructor (scheduler: Scheduler, v1: Packet?, v2: Packet?, ghost works: seq<Packet>, ghost devices: seq<Packet>)
      requires Chain(v1, works) && Chain(v2, devices) && forall k :: 0 <= k < |works| ==> works[k] !in devices
      ensures this.scheduler == scheduler && this.v1 == v1 && this.v2 == v2
      ensures this.works == works && this.devices == devices && Valid()
    {
      this.scheduler := scheduler;
      this.v1 := v1;
      this.v2 := v2;
      this.works := works;
      this.devices := devices;
    }

    /** The work list once `packet` (when it is a work packet) has been appended. */
    ghost function WorksWith(packet: Packet?): seq<Packet>
      reads this, packet
    {
      if packet != null && packet.kind == KIND_WORK then works + [packet] else works
    }

    /** The device list once `packet` (when it is not a work packet) has been appended. */
    ghost function DevicesWith(packet: Packet?): seq<Packet>
      reads this, packet
    {
      if packet != null && packet.kind != KIND_WORK then devices + [packet] else devices
    }

    /** The first step of `run`: a given packet is appended to the list of its kind. */
    method Accept(packet: Packet?, ghost queues: seq<seq<Packet>>)
      requires Ready(queues)
      requires packet != null ==>
        packet !in works && packet !in devices && packet !in Members(queues) && packet.a2.Length == DATA_SIZE
      modifies this`v1, this`v2, this`works, this`devices
      modifies if packet == null then {} else {packet}`link
      modifies if packet == null then {} else {LastOr(works, packet), LastOr(devices, packet)}`link
      ensures Ready(queues)
      ensures works == old(WorksWith(packet)) && devices == old(DevicesWith(packet))
      ensures packet != null ==> packet.a1 == old(packet.a1) && packet.id == old(packet.id) && packet.kind == old(packet.kind)
      ensures forall n :: n in old(works) ==> n.a1 == old(n.a1) && n.id == old(n.id)
      ensures forall n :: n in old(devices) ==> n.a1 == old(n.a1) && n.id == old(n.id)
    {
      if packet != null {
        if packet.kind == KIND_WORK {
          AcceptWork(packet, queues);
        } else {
          AcceptDevice(packet, queues);
        }
      }
    }

    /** A work packet joins the tail of `v1`. */
    method AcceptWork(packet: Packet, ghost queues: seq<seq<Packet>>)
      requires Ready(queues)
      requires packet !in works && packet !in devices && packet !in Members(queues) && packet.a2.Length == DATA_SIZE
      modifies this`v1, this`works, packet`link, LastOr(works, packet)`link
      ensures Ready(queues)
      ensures works == old(works) + [packet]
    {
      assert LastOr(works, packet) !in Members(queues);
      v1 := packet.AddTo(v1, works);
      works := works + [packet];
    }

    /** A device packet joins the tail of `v2`. */
    method AcceptDevice(packet: Packet, ghost queues: seq<seq<Packet>>)
      requires Ready(queues)
      requires packet !in works && packet !in devices && packet !in Members(queues)
      modifies this`v2, this`devices, packet`link, LastOr(devices, packet)`link
      ensures Ready(queues)
      ensures devices == old(devices) + [packet]
    {
      assert LastOr(devices, packet) !in Members(queues);
      v2 := packet.AddTo(v2, devices);
      devices := devices + [packet];
    }

    /** The handler's packets are on none of the queues and carry full payloads. */
    ghost predicate Apart(queues: seq<seq<Packet>>)
      reads this
    {
      (forall k :: 0 <= k < |works| ==> works[k] !in Members(queues) && works[k].a2.Length == DATA_SIZE) &&
      (forall k :: 0 <= k < |devices| ==> devices[k] !in Members(queues))
    }

    /**
     * `run(packet)`: a given packet first joins the list of its kind. Then,
     * with a work packet at the head of `v1` whose count `a1` is below
     * DATA_SIZE, the head of `v2` (if any) leaves its list, takes the next
     * payload value of the work packet, and is sent through `queue`; a work
     * packet whose count has reached DATA_SIZE leaves `v1` and is sent
     * through `queue`; in every other case the handler suspends.
     */
    method Run(packet: Packet?, ghost queues: seq<seq<Packet>>) returns (r: Result<TaskControlBlock?>)
      requires Ready(queues)
      requires packet != null ==>
        packet !in works && packet !in devices && packet !in Members(queues) && packet.a2.Length == DATA_SIZE
      modifies this, scheduler`queueCount, scheduler.BlockSet(), works, devices, Members(queues)
      modifies if packet == null then {} else {packet}
      ensures Valid()
      ensures
        var w, d := old(WorksWith(packet)), old(DevicesWith(packet));
        if w == [] || (old(w[0].a1) < DATA_SIZE && d == []) then
          works == w && devices == d && r == scheduler.SuspendResult()
        else if old(w[0].a1) < DATA_SIZE then
          works == w && devices == d[1..] &&
          d[0].a1 == old(w[0].a2[w[0].a1]) && w[0].a1 == old(w[0].a1) + 1 &&
          r == old(scheduler.QueueResult(d[0].id)) &&
          scheduler.QueuesAre(scheduler.Queued(queues, old(d[0].id), d[0], r))
        else
          works == w[1..] && devices == d &&
          r == old(scheduler.QueueResult(w[0].id)) &&
          scheduler.QueuesAre(scheduler.Queued(queues, old(w[0].id), w[0], r))
    {
      ghost var w, d := WorksWith(packet), DevicesWith(packet);
      ghost var count := if w == [] then 0 else w[0].a1;
      ghost var value := if w == [] || count >= DATA_SIZE then 0 else w[0].a2[count];
      ghost var forwarded := if w == [] || d == [] then Ok(null) else scheduler.QueueResult(d[0].id);
      ghost var retired := if w == [] then Ok(null) else scheduler.QueueResult(w[0].id);
      Accept(packet, queues);
      assert works == w && devices == d;
      assert w != [] ==> w[0].a1 == count;
      assert w != [] && count < DATA_SIZE ==> w[0].a2[count] == value;
      assert w != [] && d != [] ==> d[0].id == old(d[0].id) && forwarded == scheduler.QueueResult(d[0].id);
      assert w != [] ==> w[0].id == old(w[0].id) && retired == scheduler.QueueResult(w[0].id);
      r := Serve(queues);
    }

    /** Scheduler, queue and list conditions shared by the steps of `run`. */
    ghost predicate Ready(queues: seq<seq<Packet>>)
      reads this, works, devices, scheduler, scheduler.blocks, scheduler.BlockSet(), Members(queues)
    {
      Valid() && Apart(queues) &&
      scheduler.Valid() && scheduler.SlotsMatch() && scheduler.QueuesAre(queues) && Disjoint(queues)
    }

    /** `run` once the given packet has joined its list: forward, retire, or suspend. */
    method Serve(ghost queues: seq<seq<Packet>>) returns (r: Result<TaskControlBlock?>)
      requires Ready(queues)
      modifies this`v1, this`v2, this`works, this`devices, scheduler`queueCount, scheduler.BlockSet()
      modifies works, devices, Members(queues)
      ensures Valid()
      ensures
        var w, d := old(works), old(devices);
        if w == [] || (old(w[0].a1) < DATA_SIZE && d == []) then
          works == w && devices == d && r == scheduler.SuspendResult()
        else if old(w[0].a1) < DATA_SIZE then
          works == w && devices == d[1..] &&
          d[0].a1 == old(w[0].a2[w[0].a1]) && w[0].a1 == old(w[0].a1) + 1 &&
          r == old(scheduler.QueueResult(d[0].id)) &&
          scheduler.QueuesAre(scheduler.Queued(queues, old(d[0].id), d[0], r))
        else
          works == w[1..] && devices == d &&
          r == old(scheduler.QueueResult(w[0].id)) &&
          scheduler.QueuesAre(scheduler.Queued(queues, old(w[0].id), w[0], r))
    {
      var work := v1;
      if work != null {
        var count := work.a1;
        if count < DATA_SIZE {
          var dev := v2;
          if dev != null {
            r := Forward(queues);
            return;
          }
        } else {
          r := Retire(queues);
          return;
        }
      }
      r := scheduler.SuspendCurrent();
    }

    /** `queue(packet)` for a packet on neither list of this handler: both lists keep their links. */
    method Send(packet: Packet, ghost queues: seq<seq<Packet>>) returns (r: Result<TaskControlBlock?>)
      requires Valid() && Apart(queues) && packet !in works && packet !in devices
      requires scheduler.Valid() && scheduler.SlotsMatch() && scheduler.QueuesAre(queues) && Disjoint(queues)
      requires packet !in Members(queues)
      modifies scheduler`queueCount, packet`link, packet`id, scheduler.blocks[packet.id]
      modifies LastOr(queues[packet.id], packet)`link
      ensures Valid()
      ensures r == old(scheduler.QueueResult(packet.id))
      ensures scheduler.QueuesAre(scheduler.Queued(queues, old(packet.id), packet, r))
    {
      ghost var last := LastOr(queues[packet.id], packet);
      if |queues[packet.id]| > 0 {
        MemberAt(queues, packet.id, |queues[packet.id]| - 1);
      }
      assert last !in works && last !in devices;
      r := scheduler.Queue(packet, queues);
    }

    /** The head device packet takes the next payload value of the head work packet and is queued. */
    method Forward(ghost queues: seq<seq<Packet>>) returns (r: Result<TaskControlBlock?>)
      requires Ready(queues) && v1 != null && v2 != null && v1.a1 < DATA_SIZE
      modifies this`v2, this`devices, scheduler`queueCount, scheduler.BlockSet()
      modifies v1, v2, Members(queues)
      ensures Valid()
      ensures
        var w, d := old(works), old(devices);
        works == w && devices == d[1..] &&
        d[0].a1 == old(w[0].a2[w[0].a1]) && w[0].a1 == old(w[0].a1) + 1 &&
        r == old(scheduler.QueueResult(d[0].id)) &&
        scheduler.QueuesAre(scheduler.Queued(queues, old(d[0].id), d[0], r))
    {
      var work := v1;
      var dev := v2;
      ChainRest(work, works);
      ChainRest(dev, devices);
      var count := work.a1;
      v2 := dev.link;
      devices := devices[1..];
      dev.a1 := work.a2[count];
      work.a1 := count + 1;
      r := Send(dev, queues);
    }

    /** The head work packet, its payload used up, leaves the list and is queued. */
    method Retire(ghost queues: seq<seq<Packet>>) returns (r: Result<TaskControlBlock?>)
      requires Ready(queues) && v1 != null && v1.a1 >= DATA_SIZE
      modifies this`v1, this`works, scheduler`queueCount, scheduler.BlockSet()
      modifies v1, Members(queues)
      ensures Valid()
      ensures
        var w, d := old(works), old(devices);
        works == w[1..] && devices == d &&
        r == old(scheduler.QueueResult(w[0].id)) &&
        scheduler.QueuesAre(scheduler.Queued(queues, old(w[0].id), w[0], r))
    {
      var work := v1;
      ChainRest(work, works);
      v1 := work.link;
      works := works[1..];
      r := Send(work, queues);
    }
  }

  // ---------------------------------------------------------------------------
  // The benchmark run
  // ---------------------------------------------------------------------------

  /**
   * `runRichards()` up to the comparison of the counters: it builds the idle
   * task, the worker with two work packets, two handlers with three device
   * packets each and two device tasks, then schedules. With the stubbed
   * states no task runs, so both counters stay 0.
   */
  method RunRichards() returns (queueCount: int, holdCount: int)
    ensures queueCount == 0 && holdCount == 0
  {
    var blocks := new TaskControlBlock?[NUMBER_OF_IDS](_ => null);
    var scheduler := new Scheduler(0, 0, blocks, null, null, -1);
    AddBenchmarkTasks(scheduler);
    scheduler.Schedule();
    queueCount, holdCount := scheduler.queueCount, scheduler.holdCount;
  }

  /** The task set-up of `runRichards`, in its order. */
  method AddBenchmarkTasks(scheduler: Scheduler)
    requires scheduler.Valid() && scheduler.ListLinked()
    modifies scheduler`list, scheduler`currentTcb, scheduler.blocks
    ensures scheduler.ListLinked()
  {
    scheduler.AddIdleTask(ID_IDLE, 0, null, COUNT);

    var queue := new Packet(null, ID_WORKER, KIND_WORK, 0);
    queue := new Packet(queue, ID_WORKER, KIND_WORK, 0);
    scheduler.AddWorkerTask(ID_WORKER, 1000, queue);

    queue := new Packet(null, ID_DEVICE_A, KIND_DEVICE, 0);
    queue := new Packet(queue, ID_DEVICE_A, KIND_DEVICE, 0);
    queue := new Packet(queue, ID_DEVICE_A, KIND_DEVICE, 0);
    scheduler.AddHandlerTask(ID_HANDLER_A, 2000, queue);

    queue := new Packet(null, ID_DEVICE_B, KIND_DEVICE, 0);
    queue := new Packet(queue, ID_DEVICE_B, KIND_DEVICE, 0);
    queue := new Packet(queue, ID_DEVICE_B, KIND_DEVICE, 0);
    scheduler.AddHandlerTask(ID_HANDLER_B, 3000, queue);

    scheduler.AddDeviceTask(ID_DEVICE_A, 4000, null);
    scheduler.AddDeviceTask(ID_DEVICE_B, 5000, null);
  }
}
