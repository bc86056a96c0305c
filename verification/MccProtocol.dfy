/**
 Tasks on several cores interleaving on one bookkeeping block.  Each semaphore-protected
 section is one step; waits, and the unlocked look at a list, are separate steps with any
 outcome.  A run is a list of steps from an initialised block; a step that its task cannot
 take changes nothing.
 */
module MccProtocol {
  import opened MccTypes
  import opened MccShared
  import opened MccSections

  datatype RecvMode = CopyInto(size: nat) | ZeroCopy

  /** timeout_us: 0, a finite time, or 0xffffffff */
  datatype Timeout = NoWait | Bounded | Forever

  /** Where a task is between two sections. */
  datatype Pc =
    | Idle
    | SendWaiting(endpoint: Endpoint, msg: seq<Byte>, timeout: Timeout)
    | LookedUp(endpoint: Endpoint, slot: nat, mode: RecvMode, timeout: Timeout)
    | Receiving(endpoint: Endpoint, slot: nat, mode: RecvMode)

  datatype Task = Task(core: nat, node: nat, pc: Pc)

  datatype Action =
    | Initialize
    | CreateEndpoint(port: nat)
    | DestroyEndpoint(endpoint: Endpoint)
    | Destroy(node: nat)
    | Send(endpoint: Endpoint, msg: seq<Byte>, timeout: Timeout)
    | RetrySend
    | GiveUpSend
    | LookUp(endpoint: Endpoint, mode: RecvMode, timeout: Timeout)
    | Peek(empty: bool)
    | Receive
    | CountMessages(endpoint: Endpoint)
    | FreeBuffer(buffer: nat)
    | Interrupt

  datatype Step = Step(task: nat, action: Action)

  /** What a step lets its caller, or an observer of the table, see. */
  datatype Event =
    | Silent
    | Opened(slot: nat, endpoint: Endpoint)
    | Closed(slots: set<nat>)
    | Sent(endpoint: Endpoint, msg: seq<Byte>)
    | Found(endpoint: Endpoint, slot: nat)
    | Taken(endpoint: Endpoint, slot: nat, receipt: Receipt, zeroCopy: bool)
    | Freed(buffer: nat)
    | Counted(endpoint: Endpoint, count: nat)
    | Failed(status: Status)

  datatype System = System(shared: Shared, tasks: seq<Task>, held: set<nat>) {

    /** Every buffer is in exactly one place: free, on one endpoint list, or held. */
    ghost predicate Partitioned() {
      Owned(shared) + multiset(held) == AllBuffers(|shared.cells|)
    }

    ghost predicate TaskOk(t: Task) {
      && t.core < |shared.rings|
      && (t.pc.SendWaiting? ==> |t.pc.msg| <= shared.bufferSize)
      && (t.pc.LookedUp? || t.pc.Receiving? ==> t.pc.slot < |shared.table|)
    }

    ghost predicate Ok() {
      shared.Ok() && Partitioned() && forall k :: 0 <= k < |tasks| ==> TaskOk(tasks[k])
    }

    function At(t: nat, pc: Pc): System
      requires t < |tasks|
    {
      this.(tasks := tasks[t := tasks[t].(pc := pc)])
    }

    function With(s: Shared): System {
      this.(shared := s)
    }
  }

  /** The call is made when the task is idle; a free needs a buffer that was handed out. */
  predicate Enabled(sys: System, step: Step) {
    && step.task < |sys.tasks|
    && var pc := sys.tasks[step.task].pc;
       match step.action
       case RetrySend => pc.SendWaiting?
       case GiveUpSend => pc.SendWaiting? && pc.timeout == Bounded
       case Peek(_) => pc.LookedUp?
       case Receive => pc.Receiving?
       case FreeBuffer(b) => pc == Idle && b in sys.held
       case Interrupt => true
       case _ => pc == Idle
  }

  /** The entries that hold an endpoint of the node. */
  function EntriesOf(table: seq<Slot>, node: nat): set<nat> {
    set i | 0 <= i < |table| && OfNode(table[i], node)
  }

  /** One pass of mcc_send through its critical section. */
  function SendPass(sys: System, t: nat, ep: Endpoint, msg: seq<Byte>, timeout: Timeout): (System, Event)
    requires sys.Ok() && t < |sys.tasks| && |msg| <= sys.shared.bufferSize
  {
    var (s, status) := SendSection(sys.shared, ep, msg);
    match status
    case None =>
      if timeout == NoWait then (sys.With(s).At(t, Idle), Failed(ErrNoMem))
      else (sys.With(s).At(t, SendWaiting(ep, msg, timeout)), Silent)
    case Some(Success) => (sys.With(s).At(t, Idle), Sent(ep, msg))
    case Some(e) => (sys.With(s).At(t, Idle), Failed(e))
  }

  /** The second section of a receive, on the list that was looked up. */
  function ReceivePass(sys: System, t: nat, ep: Endpoint, slot: nat, mode: RecvMode): (System, Event)
    requires sys.Ok() && t < |sys.tasks| && slot < |sys.shared.table|
  {
    var (s, receipt) :=
      match mode
      case CopyInto(size) => CopySection(sys.shared, slot, size, sys.tasks[t].core)
      case ZeroCopy => NoCopySection(sys.shared, slot);
    var done := sys.With(s).At(t, Idle);
    if receipt.Nothing? then (done, Failed(ErrTimeout))
    else (done.(held := if mode.ZeroCopy? then sys.held + {receipt.buffer} else sys.held),
          Taken(ep, slot, receipt, mode.ZeroCopy?))
  }

  function Perform(sys: System, step: Step): (System, Event)
    requires sys.Ok() && Enabled(sys, step)
  {
    var (t, s, task) := (step.task, sys.shared, sys.tasks[step.task]);
    assert task in sys.tasks;
    match step.action
    case Initialize => (sys, Silent)
    case CreateEndpoint(port) =>
      var ep := Endpoint(task.core, task.node, port);
      var (r, status) := Register(s, ep);
      (sys.With(r), if status == Success then Opened(FirstFree(s.table), ep) else Failed(status))
    case DestroyEndpoint(ep) =>
      var (r, status) := Remove(s, ep);
      (sys.With(r), if status == Success then Closed({IndexOf(s.table, ep)}) else Failed(status))
    case Destroy(node) => (sys.With(RemoveNode(s, node)), Closed(EntriesOf(s.table, node)))
    case Send(ep, msg, timeout) =>
      if |msg| > s.bufferSize then (sys, Failed(ErrInval)) else SendPass(sys, t, ep, msg, timeout)
    case RetrySend => SendPass(sys, t, task.pc.endpoint, task.pc.msg, task.pc.timeout)
    case GiveUpSend => (sys.At(t, Idle), Failed(ErrTimeout))
    case LookUp(ep, mode, timeout) =>
      (match Lookup(s, ep)
       case None => (sys, Failed(ErrEndpoint))
       case Some(i) => (sys.At(t, LookedUp(ep, i, mode, timeout)), Found(ep, i)))
    case Peek(empty) =>
      if empty && task.pc.timeout == NoWait then (sys.At(t, Idle), Failed(ErrTimeout))
      else (sys.At(t, Receiving(task.pc.endpoint, task.pc.slot, task.pc.mode)), Silent)
    case Receive => ReceivePass(sys, t, task.pc.endpoint, task.pc.slot, task.pc.mode)
    case CountMessages(ep) =>
      (match Lookup(s, ep)
       case None => (sys, Failed(ErrEndpoint))
       case Some(i) => (sys, Counted(ep, |s.table[i].queue|)))
    case FreeBuffer(b) =>
      (sys.With(FreeSection(s, b, task.core)).(held := sys.held - {b}), Freed(b))
    case Interrupt => (sys.With(ServiceSection(s, task.core)), Silent)
  }

  function Next(sys: System, step: Step): (System, Event)
    requires sys.Ok()
  {
    if Enabled(sys, step) then Perform(sys, step) else (sys, Silent)
  }

  // ---------- every step keeps the invariant ----------

  lemma AtKeepsOk(sys: System, t: nat, pc: Pc)
    requires sys.Ok() && t < |sys.tasks| && sys.TaskOk(sys.tasks[t].(pc := pc))
    ensures sys.At(t, pc).Ok()
  {
  }

  lemma WithKeepsOk(sys: System, s: Shared)
    requires sys.Ok() && s.Ok() && Owned(s) == Owned(sys.shared) && SameShape(sys.shared, s)
    ensures sys.With(s).Ok()
  {
    forall k | 0 <= k < |sys.tasks| ensures sys.With(s).TaskOk(sys.tasks[k]) {
      assert sys.TaskOk(sys.tasks[k]);
    }
  }

  /** A held buffer is neither free nor on a list, and it is a buffer of the block. */
  lemma HeldIsElsewhere(sys: System, b: nat)
    requires sys.Ok() && b in sys.held
    ensures b < |sys.shared.cells| && Owned(sys.shared)[b] == 0
  {
    assert (Owned(sys.shared) + multiset(sys.held))[b] == AllBuffers(|sys.shared.cells|)[b];
  }

  ghost predicate SameSizes(sys: System, r: System) {
    SameShape(sys.shared, r.shared) && |r.tasks| == |sys.tasks|
  }

  lemma SendPassOk(sys: System, t: nat, ep: Endpoint, msg: seq<Byte>, timeout: Timeout)
    requires sys.Ok() && t < |sys.tasks| && |msg| <= sys.shared.bufferSize
    ensures SendPass(sys, t, ep, msg, timeout).0.Ok()
    ensures SameSizes(sys, SendPass(sys, t, ep, msg, timeout).0)
  {
    hide Shared.Ok, System.Partitioned;
    assert sys.TaskOk(sys.tasks[t]);
    SendAllOrNothing(sys.shared, ep, msg);
    var s := SendSection(sys.shared, ep, msg).0;
    WithKeepsOk(sys, s);
    AtKeepsOk(sys.With(s), t, Idle);
    AtKeepsOk(sys.With(s), t, SendWaiting(ep, msg, timeout));
  }

  lemma ReceivePassOk(sys: System, t: nat, ep: Endpoint, slot: nat, mode: RecvMode)
    requires sys.Ok() && t < |sys.tasks| && slot < |sys.shared.table|
    ensures ReceivePass(sys, t, ep, slot, mode).0.Ok()
    ensures SameSizes(sys, ReceivePass(sys, t, ep, slot, mode).0)
  {
    hide Shared.Ok;
    assert sys.TaskOk(sys.tasks[t]);
    match mode
    case CopyInto(size) =>
      var s := CopySection(sys.shared, slot, size, sys.tasks[t].core).0;
      CopyEffect(sys.shared, slot, size, sys.tasks[t].core);
      WithKeepsOk(sys, s);
      AtKeepsOk(sys.With(s), t, Idle);
    case ZeroCopy =>
      var (s, receipt) := NoCopySection(sys.shared, slot);
      NoCopyEffect(sys.shared, slot);
      if receipt.Nothing? {
        AtKeepsOk(sys, t, Idle);
      } else {
        var b := receipt.buffer;
        HandOutKeepsPartition(sys, s, b);
        var r := System(s, sys.tasks, sys.held + {b});
        assert forall k :: 0 <= k < |sys.tasks| ==> sys.TaskOk(sys.tasks[k]) ==> r.TaskOk(sys.tasks[k]);
        AtKeepsOk(r, t, Idle);
      }
  }

  lemma HandOutKeepsPartition(sys: System, s: Shared, b: nat)
    requires sys.Partitioned() && Owned(s) + multiset{b} == Owned(sys.shared) && |s.cells| == |sys.shared.cells|
    ensures b !in sys.held && System(s, sys.tasks, sys.held + {b}).Partitioned()
  {
    var n := |s.cells|;
    assert (Owned(sys.shared) + multiset(sys.held))[b] == AllBuffers(n)[b];
    assert Owned(sys.shared)[b] > 0;
    assert multiset(sys.held + {b}) == multiset(sys.held) + multiset{b};
  }

  lemma GiveBackKeepsPartition(sys: System, s: Shared, b: nat)
    requires sys.Partitioned() && b in sys.held && Owned(s) == Owned(sys.shared) + multiset{b}
    requires |s.cells| == |sys.shared.cells|
    ensures System(s, sys.tasks, sys.held - {b}).Partitioned()
  {
    assert multiset(sys.held) == multiset(sys.held - {b}) + multiset{b};
  }
}
