/**
 The calls on the bookkeeping block perform the steps of the interleaving model: after any run
 of calls by any tasks the block in memory is the one of the model, and the buffers on no list
 are those that zero-copy receivers hold.
 */
module MccRefinement {
  import opened Options
  import opened MccTypes
  import opened MccLists
  import opened MccBookkeeping
  import S = MccShared
  import opened MccProtocol
  import opened MccRuns

  /** The block in memory is in this state of the system. */
  ghost predicate Represents(bk: Bookkeeping, sys: System)
    reads bk, bk.Repr()
  {
    && bk.initString == INIT_STRING && bk.Valid() && sys.Ok() && bk.View() == sys.shared
    && forall b :: b in bk.Pool() ==> (bk.Detached(b) <==> b.index in sys.held)
  }

  /** A buffer is on a list of the block exactly when the model has it there. */
  lemma DetachedIsNowhere(bk: Bookkeeping, b: ReceiveBuffer)
    requires bk.Valid() && b in bk.Pool()
    ensures bk.Detached(b) <==> b.index !in bk.View().free && !OnSomeList(bk.View().table, b.index)
  {
    var s := bk.View();
    assert bk.buffers[b.index] == b;
    if b.owner == bk.freeList {
      var p :| 0 <= p < |bk.freeList.contents| && bk.freeList.contents[p] == b;
      assert s.free[p] == b.index;
    } else if b.owner != null {
      var i :| 0 <= i < |bk.table| && bk.table[i].list == b.owner;
      var p :| 0 <= p < |b.owner.contents| && b.owner.contents[p] == b;
      assert s.table[i].queue[p] == b.index;
    }
    if p :| 0 <= p < |s.free| && s.free[p] == b.index {
      Owner(bk, bk.freeList, p, b);
    }
    if i, p :| 0 <= i < |s.table| && 0 <= p < |s.table[i].queue| && s.table[i].queue[p] == b.index {
      Owner(bk, bk.table[i].list, p, b);
    }
  }

  lemma Owner(bk: Bookkeeping, list: ReceiveList, p: nat, b: ReceiveBuffer)
    requires bk.Valid() && list in bk.Lists() && b in bk.Pool()
    requires p < |list.contents| && list.contents[p].index == b.index
    ensures b.owner == list
  {
    assert list.contents[p] in bk.Pool();
  }

  /** Once the shared parts agree, so do the buffers that are held. */
  lemma SharedIsEnough(bk: Bookkeeping, sys: System)
    requires bk.initString == INIT_STRING && bk.Valid() && sys.Ok() && bk.View() == sys.shared
    ensures Represents(bk, sys)
  {
    hide System.Ok;
    forall b | b in bk.Pool() ensures bk.Detached(b) <==> b.index in sys.held {
      DetachedIsNowhere(bk, b);
      OneKindOfPlace(sys, b.index);
    }
  }

  /** What the caller sees of a step. */
  datatype Answer = Answer(status: Status, output: seq<Byte>, count: nat)

  ghost predicate Reports(e: Event, a: Answer) {
    match e
    case Silent => true
    case Failed(status) => a.status == status
    case Taken(_, _, receipt, _) =>
      a.status == Success && receipt.Received? && a.output == receipt.output && a.count == |a.output|
    case Counted(_, n) => a.status == Success && a.count == n
    case _ => a.status == Success
  }

  // ---------- one step ----------

  /** What a call may rely on. */
  lemma Unpack(bk: Bookkeeping, sys: System)
    requires Represents(bk, sys)
    ensures bk.initString == INIT_STRING && bk !in bk.Repr()
    ensures bk.Valid() && sys.Ok() && bk.View() == sys.shared && sys.shared.Ok()
    ensures |sys.shared.rings| == bk.signals.cores && sys.shared.bufferSize == bk.bufferSize
    ensures |sys.shared.table| == |bk.table| && |sys.shared.cells| == |bk.buffers|
  {
    hide System.Partitioned, S.Shared.Ok, Bookkeeping.Linked;
  }

  /** What a call has to show. */
  lemma Close(bk: Bookkeeping, sys: System, step: Step)
    requires bk.initString == INIT_STRING && bk.Valid() && sys.Ok() && Enabled(sys, step)
    requires bk.View() == Perform(sys, step).0.shared
    ensures Represents(bk, Perform(sys, step).0)
  {
    PerformKeepsOk(sys, step);
    SharedIsEnough(bk, Perform(sys, step).0);
  }

  /** A step that finds the task where the call was made. */
  ghost predicate Made(bk: Bookkeeping, sys: System, step: Step, task: Task)
    reads bk, bk.Repr()
  {
    Represents(bk, sys) && Enabled(sys, step) && task == sys.tasks[step.task]
  }

  ghost predicate Done(bk: Bookkeeping, sys: System, step: Step, a: Answer)
    reads bk, bk.Repr()
  {
    sys.Ok() && Enabled(sys, step) && Represents(bk, Perform(sys, step).0) && Reports(Perform(sys, step).1, a)
  }

  /** mcc_initialize on a block that is in use. */
  method InitializeAgain(bk: Bookkeeping, ghost sys: System)
    requires Represents(bk, sys)
    modifies bk, bk.Repr()
    ensures Represents(bk, sys)
  {
    bk.Initialize();
  }

  method CreateEndpoint(bk: Bookkeeping, ghost sys: System, ghost step: Step, task: Task, port: nat) returns (a: Answer)
    requires Made(bk, sys, step, task) && step.action == Action.CreateEndpoint(port)
    modifies bk.Repr()
    ensures Done(bk, sys, step, a)
  {
    hide Represents, System.Ok, S.Shared.Ok, S.Register, Perform, Bookkeeping.Valid, Bookkeeping.View;
    Unpack(bk, sys);
    PerformCreate(sys, step);
    var _, status := bk.CreateEndpoint(task.core, task.node, port);
    a := Answer(status, [], 0);
    Close(bk, sys, step);
  }

  lemma PerformCreate(sys: System, step: Step)
    requires sys.Ok() && Enabled(sys, step) && step.action.CreateEndpoint?
    ensures var (r, e) := Perform(sys, step); var task := sys.tasks[step.task];
            var (s, status) := S.Register(sys.shared, Endpoint(task.core, task.node, step.action.port));
            r.shared == s && forall a: Answer :: a.status == status ==> Reports(e, a)
  {
  }

  method DestroyEndpoint(bk: Bookkeeping, ghost sys: System, ghost step: Step, task: Task, ep: Endpoint)
    returns (a: Answer)
    requires Made(bk, sys, step, task) && step.action == Action.DestroyEndpoint(ep)
    modifies bk.Repr()
    ensures Done(bk, sys, step, a)
  {
    hide Represents, System.Ok, S.Shared.Ok, S.Remove, Perform, Bookkeeping.Valid, Bookkeeping.View, Bookkeeping.Repr;
    Unpack(bk, sys);
    PerformDestroy(sys, step);
    var status := bk.RemoveEndpoint(ep);
    a := Answer(status, [], 0);
    Close(bk, sys, step);
  }

  lemma PerformDestroy(sys: System, step: Step)
    requires sys.Ok() && Enabled(sys, step) && step.action.DestroyEndpoint?
    ensures var (r, e) := Perform(sys, step); var (s, status) := S.Remove(sys.shared, step.action.endpoint);
            r.shared == s && forall a: Answer :: a.status == status ==> Reports(e, a)
  {
  }

  method Destroy(bk: Bookkeeping, ghost sys: System, ghost step: Step, task: Task, node: nat) returns (a: Answer)
    requires Made(bk, sys, step, task) && step.action == Action.Destroy(node)
    modifies bk.Repr()
    ensures Done(bk, sys, step, a)
  {
    hide System.Ok, S.Shared.Ok, S.RemoveNode, Bookkeeping.Valid, Bookkeeping.View, Bookkeeping.Repr, Represents;
    Unpack(bk, sys);
    bk.RemoveNode(node);
    a := Answer(Success, [], 0);
    Close(bk, sys, step);
  }

  /** One pass of mcc_send. */
  method Send(bk: Bookkeeping, ghost sys: System, ghost step: Step, task: Task, ep: Endpoint, msg: seq<Byte>,
              ghost timeout: Timeout)
    returns (a: Answer)
    requires Made(bk, sys, step, task)
    requires step.action == Action.Send(ep, msg, timeout)
             || (step.action.RetrySend? && task.pc == SendWaiting(ep, msg, timeout))
    modifies bk.Repr()
    ensures Done(bk, sys, step, a)
  {
    hide Represents, System.Ok, S.Shared.Ok, S.SendSection, Perform;
    hide Bookkeeping.Valid, Bookkeeping.View, Bookkeeping.Repr;
    Unpack(bk, sys);
    PerformSend(sys, step, ep, msg, timeout);
    if |msg| > bk.bufferSize {
      a := Answer(ErrInval, [], 0);
    } else {
      var status := bk.SendSection(ep, msg);
      a := Answer(if status.None? then ErrNoMem else status.value, [], 0);
    }
    Close(bk, sys, step);
  }

  lemma PerformSend(sys: System, step: Step, ep: Endpoint, msg: seq<Byte>, timeout: Timeout)
    requires sys.Ok() && Enabled(sys, step)
    requires step.action == Action.Send(ep, msg, timeout)
             || (step.action.RetrySend? && sys.tasks[step.task].pc == SendWaiting(ep, msg, timeout))
    ensures var (r, e) := Perform(sys, step);
            if |msg| > sys.shared.bufferSize then
              r.shared == sys.shared && forall a: Answer :: a.status == ErrInval ==> Reports(e, a)
            else
              var (s, status) := S.SendSection(sys.shared, ep, msg);
              && r.shared == s
              && forall a: Answer :: a.status == (if status.None? then ErrNoMem else status.value) ==> Reports(e, a)
  {
    hide S.SendSection, System.Partitioned, S.Shared.Ok;
    assert sys.TaskOk(sys.tasks[step.task]);
  }

  /** The second section of a receive. */
  method Receive(bk: Bookkeeping, ghost sys: System, ghost step: Step, task: Task) returns (a: Answer)
    requires Made(bk, sys, step, task) && step.action.Receive?
    modifies bk.Repr()
    ensures Done(bk, sys, step, a)
  {
    hide Represents, System.Ok, S.Shared.Ok, S.CopySection, S.NoCopySection;
    hide Perform, Bookkeeping.Valid, Bookkeeping.View;
    Unpack(bk, sys);
    PerformReceive(sys, step);
    var slot := task.pc.slot;
    match task.pc.mode {
      case CopyInto(size) =>
        var buffer := new Byte[size];
        var status, count := bk.ReceiveCopy(bk.table[slot].list, slot, buffer, size, task.core);
        a := Answer(status, if count <= size then buffer[..count] else [], count);
      case ZeroCopy =>
        var status, b, count := bk.ReceiveNoCopy(bk.table[slot].list, slot);
        a := Answer(status, if b != null && count <= b.data.Length then b.data[..count] else [], count);
    }
    Close(bk, sys, step);
  }

  lemma PerformReceive(sys: System, step: Step)
    requires sys.Ok() && Enabled(sys, step) && step.action.Receive?
    ensures var (r, e) := Perform(sys, step); var task := sys.tasks[step.task];
            && task.pc.slot < |sys.shared.table| && sys.shared.Ok()
            && var (s, receipt) :=
                 match task.pc.mode
                 case CopyInto(size) => S.CopySection(sys.shared, task.pc.slot, size, task.core)
                 case ZeroCopy => S.NoCopySection(sys.shared, task.pc.slot);
               && r.shared == s
               && (receipt.Received? && task.pc.mode.ZeroCopy? ==> receipt.output == receipt.message)
               && forall a: Answer ::
                    (if receipt.Nothing? then a.status == ErrTimeout
                     else a.status == Success && a.output == receipt.output && a.count == |a.output|) ==> Reports(e, a)
  {
    hide S.CopySection, System.Partitioned, S.Shared.TableOk, S.Shared.RingsOk;
    assert sys.TaskOk(sys.tasks[step.task]);
  }

  /** mcc_free_buffer with a buffer that a zero-copy receive handed out. */
  method FreeBuffer(bk: Bookkeeping, ghost sys: System, ghost step: Step, task: Task, b: nat) returns (a: Answer)
    requires Made(bk, sys, step, task) && step.action == Action.FreeBuffer(b)
    modifies bk.Repr()
    ensures Done(bk, sys, step, a)
  {
    HeldIsDetached(bk, sys, b);
    hide Represents, System.Ok, S.Shared.Ok, S.FreeSection, Perform;
    hide Bookkeeping.Valid, Bookkeeping.View, Bookkeeping.Repr;
    Unpack(bk, sys);
    PerformFree(sys, step);
    bk.FreeBuffer(bk.buffers[b], task.core);
    a := Answer(Success, [], 0);
    Close(bk, sys, step);
  }

  lemma PerformFree(sys: System, step: Step)
    requires sys.Ok() && Enabled(sys, step) && step.action.FreeBuffer?
    ensures var (r, e) := Perform(sys, step); var b := step.action.buffer;
            && r.shared == S.FreeSection(sys.shared, b, sys.tasks[step.task].core)
            && forall a: Answer :: a.status == Success ==> Reports(e, a)
  {
  }

  lemma HeldIsDetached(bk: Bookkeeping, sys: System, b: nat)
    requires Represents(bk, sys) && b in sys.held
    ensures b < |bk.buffers| && bk.buffers[b].index == b && bk.Detached(bk.buffers[b])
  {
    HeldIsElsewhere(sys, b);
    assert bk.buffers[b] in bk.Pool();
  }

  method Interrupt(bk: Bookkeeping, ghost sys: System, ghost step: Step, task: Task) returns (a: Answer)
    requires Made(bk, sys, step, task) && step.action.Interrupt?
    modifies bk.Repr()
    ensures Done(bk, sys, step, a)
  {
    TaskFits(sys, step.task);
    hide Represents, System.Ok, S.Shared.Ok, Bookkeeping.Valid, Bookkeeping.View, Bookkeeping.Repr;
    Unpack(bk, sys);
    var _, _ := bk.ServiceInterrupt(task.core);
    a := Answer(Success, [], 0);
    Close(bk, sys, step);
  }

  lemma TaskFits(sys: System, t: nat)
    requires sys.Ok() && t < |sys.tasks|
    ensures sys.TaskOk(sys.tasks[t])
  {
  }

  /** The calls and waits that change nothing in the block. */
  method Query(bk: Bookkeeping, ghost sys: System, step: Step, task: Task) returns (a: Answer)
    requires Made(bk, sys, step, task)
    requires step.action.GiveUpSend? || step.action.LookUp? || step.action.Peek? || step.action.CountMessages?
    ensures Done(bk, sys, step, a)
  {
    hide Represents, System.Ok, S.Shared.Ok, Perform, Bookkeeping.Valid, Bookkeeping.View, Bookkeeping.Repr;
    Unpack(bk, sys);
    PerformQuery(sys, step);
    match step.action {
      case GiveUpSend => a := Answer(ErrTimeout, [], 0);
      case LookUp(ep, _, _) =>
        var list := bk.GetEndpointList(ep);
        a := Answer(if list == null then ErrEndpoint else Success, [], 0);
      case Peek(empty) =>
        a := Answer(if empty && task.pc.timeout == NoWait then ErrTimeout else Success, [], 0);
      case CountMessages(ep) =>
        var status, count := bk.MsgsAvailable(ep);
        a := Answer(status, [], count);
    }
    Close(bk, sys, step);
  }

  /** What such a call returns. */
  ghost function QueryStatus(sys: System, step: Step): Status
    requires Enabled(sys, step)
  {
    match step.action
    case GiveUpSend => ErrTimeout
    case LookUp(ep, _, _) => if S.Lookup(sys.shared, ep).None? then ErrEndpoint else Success
    case Peek(empty) => if empty && sys.tasks[step.task].pc.timeout == NoWait then ErrTimeout else Success
    case CountMessages(ep) => if S.Lookup(sys.shared, ep).None? then ErrEndpoint else Success
    case _ => Success
  }

  lemma PerformQuery(sys: System, step: Step)
    requires sys.Ok() && Enabled(sys, step)
    requires step.action.GiveUpSend? || step.action.LookUp? || step.action.Peek? || step.action.CountMessages?
    ensures var (r, e) := Perform(sys, step); var s := sys.shared;
            && r.shared == s
            && forall a: Answer ::
                 && a.status == QueryStatus(sys, step)
                 && (step.action.CountMessages? && a.status == Success ==>
                       a.count == |s.table[S.Lookup(s, step.action.endpoint).value].queue|)
                 ==> Reports(e, a)
  {
    assert sys.TaskOk(sys.tasks[step.task]);
  }

  /** Any step of any task, made on the block in memory. */
  method Call(bk: Bookkeeping, ghost sys: System, step: Step, task: Task) returns (a: Answer)
    requires Made(bk, sys, step, task)
    modifies bk, bk.Repr()
    ensures Done(bk, sys, step, a)
  {
    hide Represents, System.Ok, Bookkeeping.Repr;
    a := Answer(Success, [], 0);
    match step.action {
      case Initialize => InitializeAgain(bk, sys); Unpack(bk, sys);
      case CreateEndpoint(port) => a := CreateEndpoint(bk, sys, step, task, port);
      case DestroyEndpoint(ep) => a := DestroyEndpoint(bk, sys, step, task, ep);
      case Destroy(node) => a := Destroy(bk, sys, step, task, node);
      case Send(ep, msg, timeout) => a := Send(bk, sys, step, task, ep, msg, timeout);
      case RetrySend => a := Send(bk, sys, step, task, task.pc.endpoint, task.pc.msg, task.pc.timeout);
      case Receive => a := Receive(bk, sys, step, task);
      case FreeBuffer(b) => a := FreeBuffer(bk, sys, step, task, b);
      case Interrupt => a := Interrupt(bk, sys, step, task);
      case _ => a := Query(bk, sys, step, task);
    }
  }

  // ---------- runs ----------

  /** The memory has the sizes of the configuration, and nothing in it was initialised. */
  ghost predicate Fits(bk: Bookkeeping, c: Config)
    reads bk
  {
    && bk.Layout() && bk.initString != INIT_STRING
    && |bk.buffers| == c.buffers && |bk.table| == c.endpoints && bk.bufferSize == c.bufferSize
    && bk.signals.cores == c.cores && bk.signals.size == c.ringSize
  }

  /** The first mcc_initialize brings memory with any contents into the first state of every run. */
  method Boot(bk: Bookkeeping, c: Config)
    requires c.Valid() && Fits(bk, c)
    modifies bk, bk.Repr()
    ensures Represents(bk, Start(c))
  {
    hide Bookkeeping.Valid, Bookkeeping.View, S.Initial;
    StartOk(c);
    bk.Initialize();
    SharedIsEnough(bk, Start(c));
  }

  /**
   Refinement of whole runs: booting memory with any contents and making any list of calls, by any
   tasks in any order, leaves the block that the run of the model ends in.
   */
  method Replay(bk: Bookkeeping, c: Config, steps: seq<Step>) returns (ghost x: Run)
    requires c.Valid() && Fits(bk, c)
    modifies bk, bk.Repr()
    ensures IsRun(c, x) && x.steps == steps && Represents(bk, x.states[|steps|])
  {
    hide Represents, System.Ok, Perform;
    Boot(bk, c);
    StartOk(c);
    var sys := Start(c);
    x := Run([sys], [], []);
    for i := 0 to |steps|
      invariant IsRun(c, x) && x.steps == steps[..i] && x.states[i] == sys && sys.Ok()
      invariant Represents(bk, sys)
    {
      var step := steps[i];
      x := Extended(c, x, step);
      if Enabled(sys, step) {
        PerformKeepsOk(sys, step);
        var _ := Call(bk, sys, step, sys.tasks[step.task]);
      }
      sys := Next(sys, step).0;
    }
  }
}
