/**
 What every call returns and changes, told by the arguments of the call and by what table, lists
 and rings hold at that moment.
 */
module MccResults {
  import opened Options
  import opened MccTypes
  import opened MccShared
  import opened MccSections
  import opened MccProtocol
  import opened MccRuns

  /** Entry i is in use for ep. */
  ghost predicate HoldsAt(table: seq<Slot>, ep: Endpoint, i: nat) {
    i < |table| && table[i].endpoint == ep && ep.port != 0
  }

  ghost predicate Known(table: seq<Slot>, ep: Endpoint) {
    exists i: nat :: HoldsAt(table, ep, i)
  }

  /** The lookup finds the one entry that is in use for the endpoint, if there is one. */
  lemma LookupMeans(s: Shared, ep: Endpoint)
    requires s.Ok()
    ensures Lookup(s, ep).Some? <==> Known(s.table, ep)
    ensures Lookup(s, ep).Some? ==> HoldsAt(s.table, ep, Lookup(s, ep).value) && ep.core < |s.rings|
    ensures s.Registered(ep) <==> Known(s.table, ep)
    ensures forall i: nat, j: nat :: HoldsAt(s.table, ep, i) && HoldsAt(s.table, ep, j) ==> i == j
  {
    hide Shared.Shaped, Shared.RingsOk;
    if i: nat :| HoldsAt(s.table, ep, i) {
      LookupFinds(s, i);
    }
    if s.Registered(ep) {
      assert HoldsAt(s.table, ep, IndexOf(s.table, ep));
    }
  }

  // ---------- endpoints ----------

  /** mcc_create_endpoint takes the first free entry for the caller's core and node and the port it was given. */
  lemma CreateResult(sys: System, step: Step, ep: Endpoint)
    requires sys.Ok() && Enabled(sys, step) && step.action.CreateEndpoint?
    requires var task := sys.tasks[step.task]; ep == Endpoint(task.core, task.node, step.action.port)
    ensures var (r, e) := Perform(sys, step); var table := sys.shared.table;
            if ep.port == 0 || Known(table, ep) then r == sys && e == Failed(ErrEndpoint)
            else if forall i :: 0 <= i < |table| ==> table[i].endpoint.port != 0 then r == sys && e == Failed(ErrNoMem)
            else
              && e.Opened? && e.endpoint == ep && e.slot < |table| && table[e.slot].endpoint.port == 0
              && (forall i :: 0 <= i < e.slot ==> table[i].endpoint.port != 0)
              && r == sys.With(sys.shared.(table := table[e.slot := Slot(ep, [])]))
  {
    hide System.Partitioned, Shared.Shaped, Shared.RingsOk;
    var s := sys.shared;
    assert sys.TaskOk(sys.tasks[step.task]);
    RegisterEffect(s, ep);
    RegisterStatus(s, ep);
    if i :| 0 <= i < |s.table| && s.table[i].endpoint == ep && ep.port != 0 {
      assert HoldsAt(s.table, ep, i);
    }
  }

  /** mcc_destroy_endpoint drains the entry of the endpoint into the free list and marks it free. */
  lemma DestroyResult(sys: System, step: Step, i: nat)
    requires sys.Ok() && Enabled(sys, step) && step.action.DestroyEndpoint?
    ensures var (r, e) := Perform(sys, step); var s, ep := sys.shared, step.action.endpoint;
            && (!Known(s.table, ep) ==> r == sys && e == Failed(ErrEndpoint))
            && (HoldsAt(s.table, ep, i) ==>
                  && e == Closed({i})
                  && r == sys.With(s.(free := s.free + s.table[i].queue,
                                      table := s.table[i := Slot(Endpoint(ep.core, ep.node, 0), [])])))
  {
    hide System.Partitioned;
    LookupMeans(sys.shared, step.action.endpoint);
  }

  /** The queues of the endpoints of a node from entry i on. */
  function NodeQueues(table: seq<Slot>, node: nat, i: nat): seq<nat>
    requires i <= |table|
    decreases |table| - i
  {
    if i == |table| then []
    else (if table[i].endpoint.node == node && table[i].endpoint.port != 0 then table[i].queue else [])
         + NodeQueues(table, node, i + 1)
  }

  lemma {:induction false} NodeQueuesAre(table: seq<Slot>, node: nat, i: nat)
    requires i <= |table|
    ensures NodeQueues(table, node, i) == QueuesOf(table, node, i)
    decreases |table| - i
  {
    if i < |table| {
      NodeQueuesAre(table, node, i + 1);
    }
  }

  /** mcc_destroy closes the endpoints of the node, drains their queues in table order, and leaves the rest alone. */
  lemma DestroyNodeResult(sys: System, step: Step)
    requires sys.Ok() && Enabled(sys, step) && step.action.Destroy?
    ensures var (r, e) := Perform(sys, step); var s, node := sys.shared, step.action.node;
            && e.Closed?
            && (forall i: nat ::
                  i in e.slots <==> i < |s.table| && s.table[i].endpoint.node == node && s.table[i].endpoint.port != 0)
            && |r.shared.table| == |s.table|
            && (forall i :: 0 <= i < |s.table| ==>
                  var ep := s.table[i].endpoint;
                  r.shared.table[i] == if i in e.slots then Slot(Endpoint(ep.core, ep.node, 0), []) else s.table[i])
            && r == sys.With(s.(free := s.free + NodeQueues(s.table, node, 0), table := r.shared.table))
  {
    hide System.Partitioned;
    RemoveNodeTable(sys.shared, step.action.node, 0);
    RemoveNodeDrains(sys.shared, step.action.node, 0);
    NodeQueuesAre(sys.shared.table, step.action.node, 0);
  }

  // ---------- sending ----------

  ghost predicate IsSend(sys: System, step: Step, ep: Endpoint, msg: seq<Byte>, timeout: Timeout) {
    && Enabled(sys, step)
    && (step.action == Send(ep, msg, timeout)
        || (step.action == RetrySend && sys.tasks[step.task].pc == SendWaiting(ep, msg, timeout)))
  }

  /** A failed send puts the buffer it took behind the free list, and changes nothing else but what is in it. */
  ghost predicate Undone(s: Shared, r: Shared) {
    && s.free != [] && s.free[0] < |s.cells| == |r.cells|
    && r == s.(free := s.free[1..] + [s.free[0]], cells := r.cells)
    && forall b :: 0 <= b < |s.cells| && b != s.free[0] ==> r.cells[b] == s.cells[b]
  }

  /**
   A send puts its message, in the buffer that was at the head of the free list, at the end of the
   list of the endpoint, and one signal into the ring of the endpoint's core.
   */
  ghost predicate Delivered(s: Shared, r: Shared, ep: Endpoint, msg: seq<Byte>) {
    && s.free != [] && s.free[0] < |s.cells| == |r.cells| && ep.core < |s.rings|
    && (exists i: nat :: HoldsAt(s.table, ep, i)
                         && r.table == s.table[i := Slot(ep, s.table[i].queue + [s.free[0]])])
    && r == s.(free := s.free[1..], table := r.table, cells := r.cells,
               rings := s.rings[ep.core := s.rings[ep.core] + [Signal(BufferQueued, ep)]])
    && r.cells[s.free[0]].len == |msg| && msg <= r.cells[s.free[0]].data
    && forall b :: 0 <= b < |s.cells| && b != s.free[0] ==> r.cells[b] == s.cells[b]
  }

  lemma SectionResult(s: Shared, ep: Endpoint, msg: seq<Byte>)
    requires s.Ok() && |msg| <= s.bufferSize
    ensures var (r, status) := SendSection(s, ep, msg);
            if s.free == [] then r == s && status == None
            else if !Known(s.table, ep) then Undone(s, r) && status == Some(ErrEndpoint)
            else
              && ep.core < |s.rings|
              && if |s.rings[ep.core]| + 1 >= s.ringSize then Undone(s, r) && status == Some(ErrSqFull)
                 else Delivered(s, r, ep, msg) && status == Some(Success)
  {
    hide SendSection, Known, Shared.Shaped, Shared.TableOk, Shared.RingsOk, HoldsAt;
    LookupMeans(s, ep);
    SendAllOrNothing(s, ep, msg);
    SectionFrame(s, ep, msg);
    if s.free != [] && Lookup(s, ep).Some? {
      var b := s.free[0];
      assert s.cells[b].Store(msg).data == msg + s.cells[b].data[|msg|..] by {
        CellFits(s, b);
      }
      assert HoldsAt(s.table, ep, Lookup(s, ep).value);
    }
  }

  lemma CellFits(s: Shared, b: nat)
    requires s.Ok() && b < |s.cells|
    ensures |s.cells[b].data| == s.bufferSize
  {
  }

  lemma SectionFrame(s: Shared, ep: Endpoint, msg: seq<Byte>)
    requires s.Ok() && |msg| <= s.bufferSize
    ensures SameShape(s, SendSection(s, ep, msg).0)
  {
    SendAllOrNothing(s, ep, msg);
  }

  /** What one look of mcc_send at the free list comes to. */
  lemma SendResult(sys: System, step: Step, ep: Endpoint, msg: seq<Byte>, timeout: Timeout)
    requires sys.Ok() && IsSend(sys, step, ep, msg, timeout)
    ensures var (r, e) := Perform(sys, step); var s := sys.shared;
            if |msg| > s.bufferSize then r == sys && e == Failed(ErrInval)
            else if s.free == [] then
              if timeout == NoWait then r == sys.At(step.task, Idle) && e == Failed(ErrNoMem)
              else r == sys.At(step.task, SendWaiting(ep, msg, timeout)) && e == Silent
            else
              && r == sys.With(r.shared).At(step.task, Idle)
              && if !Known(s.table, ep) then e == Failed(ErrEndpoint) && Undone(s, r.shared)
                 else
                   && ep.core < |s.rings|
                   && if |s.rings[ep.core]| + 1 >= s.ringSize then e == Failed(ErrSqFull) && Undone(s, r.shared)
                      else e == Sent(ep, msg) && Delivered(s, r.shared, ep, msg)
  {
    hide SendSection, System.Partitioned, Shared.Ok, Known, Undone, Delivered;
    assert sys.TaskOk(sys.tasks[step.task]);
    if |msg| <= sys.shared.bufferSize {
      SectionResult(sys.shared, ep, msg);
    }
  }

  /** A send gives up only when it has a finite time to wait, with nothing changed. */
  lemma GiveUpResult(sys: System, step: Step)
    requires sys.Ok() && Enabled(sys, step) && step.action.GiveUpSend?
    ensures var (r, e) := Perform(sys, step); var pc := sys.tasks[step.task].pc;
            && e == Failed(ErrTimeout) && r == sys.At(step.task, Idle) && pc.SendWaiting? && pc.timeout == Bounded
  {
  }

  // ---------- receiving ----------

  /** The lookup with which a receive begins. */
  lemma LookUpResult(sys: System, step: Step, i: nat)
    requires sys.Ok() && Enabled(sys, step) && step.action.LookUp?
    ensures var (r, e) := Perform(sys, step); var (ep, mode) := (step.action.endpoint, step.action.mode);
            && (!Known(sys.shared.table, ep) ==> r == sys && e == Failed(ErrEndpoint))
            && (HoldsAt(sys.shared.table, ep, i) ==>
                  e == Found(ep, i) && r == sys.At(step.task, LookedUp(ep, i, mode, step.action.timeout)))
  {
    hide System.Partitioned;
    LookupMeans(sys.shared, step.action.endpoint);
  }

  /** After the unlocked look: only a call that does not wait ends here, and only when it saw nothing. */
  lemma PeekResult(sys: System, step: Step)
    requires sys.Ok() && Enabled(sys, step) && step.action.Peek?
    ensures var (r, e) := Perform(sys, step); var pc := sys.tasks[step.task].pc;
            && pc.LookedUp?
            && (e, r) == if step.action.empty && pc.timeout == NoWait
                         then (Failed(ErrTimeout), sys.At(step.task, Idle))
                         else (Silent, sys.At(step.task, Receiving(pc.endpoint, pc.slot, pc.mode)))
  {
  }

  /** The first bytes of a message that fit. */
  function FirstBytes(message: seq<Byte>, size: nat): seq<Byte> {
    if |message| <= size then message else message[..size]
  }

  /** Who is told when a buffer is freed: every core but one's own whose ring has room. */
  ghost predicate OthersTold(s: Shared, r: Shared, self: nat) {
    && |r.rings| == |s.rings|
    && forall c :: 0 <= c < |s.rings| ==>
         r.rings[c] == if c == self || |s.rings[c]| + 1 >= s.ringSize then s.rings[c]
                       else s.rings[c] + [Signal(BufferFreed, Endpoint(0, 0, 0))]
  }

  /**
   The second section of a receive: it times out exactly on an empty list.  Otherwise the head of
   the list is taken.  A copying receive outputs the bytes that fit and frees the buffer, with
   the stored length cut down to them; a zero-copy one outputs the message and holds the buffer.
   */
  lemma ReceiveResult(sys: System, step: Step)
    requires sys.Ok() && Enabled(sys, step) && step.action.Receive?
    ensures var (r, e) := Perform(sys, step); var (s, task) := (sys.shared, sys.tasks[step.task]);
            && task.pc.Receiving? && task.pc.slot < |s.table|
            && var (i, ep) := (task.pc.slot, s.table[task.pc.slot].endpoint); var q := s.table[i].queue;
               if q == [] then e == Failed(ErrTimeout) && r == sys.At(step.task, Idle)
               else
                 && q[0] < |s.cells| && s.cells[q[0]].len <= |s.cells[q[0]].data|
                 && var message := s.cells[q[0]].data[..s.cells[q[0]].len]; var taken := s.table[i := Slot(ep, q[1..])];
                    match task.pc.mode
                    case ZeroCopy =>
                      && e == Taken(task.pc.endpoint, i, Received(q[0], message, message), true)
                      && r == System(s.(table := taken), sys.At(step.task, Idle).tasks, sys.held + {q[0]})
                    case CopyInto(size) =>
                      && e == Taken(task.pc.endpoint, i, Received(q[0], message, FirstBytes(message, size)), false)
                      && OthersTold(s, r.shared, task.core)
                      && var cell := Cell(|FirstBytes(message, size)|, s.cells[q[0]].data);
                         r == System(s.(table := taken, free := s.free + [q[0]], rings := r.shared.rings,
                                        cells := s.cells[q[0] := cell]),
                                     sys.At(step.task, Idle).tasks, sys.held)
  {
    hide System.Partitioned, Shared.TableOk, Shared.RingsOk, CopySection, NoCopySection;
    var (s, task) := (sys.shared, sys.tasks[step.task]);
    assert sys.TaskOk(task);
    match task.pc.mode
    case ZeroCopy => NoCopyEffect(s, task.pc.slot);
    case CopyInto(size) => CopyEffect(s, task.pc.slot, size, task.core);
  }

  // ---------- the other calls ----------

  /** mcc_msgs_available */
  lemma CountResult(sys: System, step: Step, i: nat)
    requires sys.Ok() && Enabled(sys, step) && step.action.CountMessages?
    ensures var (r, e) := Perform(sys, step); var (table, ep) := (sys.shared.table, step.action.endpoint);
            && r == sys
            && (!Known(table, ep) ==> e == Failed(ErrEndpoint))
            && (HoldsAt(table, ep, i) ==> e == Counted(ep, |table[i].queue|))
  {
    hide System.Partitioned;
    LookupMeans(sys.shared, step.action.endpoint);
  }

  /** mcc_free_buffer */
  lemma FreeResult(sys: System, step: Step)
    requires sys.Ok() && Enabled(sys, step) && step.action.FreeBuffer?
    ensures var (r, e) := Perform(sys, step); var s, b := sys.shared, step.action.buffer;
            && e == Freed(b) && b in sys.held
            && r == System(s.(free := s.free + [b], rings := r.shared.rings), sys.tasks, sys.held - {b})
            && OthersTold(s, r.shared, sys.tasks[step.task].core)
  {
    hide System.Partitioned, Shared.TableOk, Shared.RingsOk;
    HeldIsElsewhere(sys, step.action.buffer);
    FreeEffect(sys.shared, step.action.buffer, sys.tasks[step.task].core);
  }

  /** The interrupt of a core empties its ring and no other. */
  lemma InterruptResult(sys: System, step: Step)
    requires sys.Ok() && Enabled(sys, step) && step.action.Interrupt?
    ensures var (r, e) := Perform(sys, step); var core := sys.tasks[step.task].core;
            && e == Silent && |r.shared.rings| == |sys.shared.rings| && core < |sys.shared.rings|
            && r == sys.With(sys.shared.(rings := r.shared.rings))
            && forall c :: 0 <= c < |sys.shared.rings| ==>
                 r.shared.rings[c] == if c == core then [] else sys.shared.rings[c]
  {
    hide System.Partitioned, Shared.Ok;
    assert sys.TaskOk(sys.tasks[step.task]);
  }

  /** Calling mcc_initialize again changes nothing. */
  lemma InitializeResult(sys: System, step: Step)
    requires sys.Ok() && Enabled(sys, step) && step.action.Initialize?
    ensures Perform(sys, step) == (sys, Silent)
  {
  }

  /** A step moves its own task only, and no task changes core or node. */
  lemma OwnTaskOnly(sys: System, step: Step, t: nat)
    requires sys.Ok() && Enabled(sys, step) && t < |sys.tasks|
    ensures var r := Perform(sys, step).0;
            && |r.tasks| == |sys.tasks|
            && (t != step.task ==> r.tasks[t] == sys.tasks[t])
            && r.tasks[t] == sys.tasks[t].(pc := r.tasks[t].pc)
  {
    hide System.Partitioned, Shared.Ok, Lookup, SendSection, CopySection, NoCopySection;
    assert sys.TaskOk(sys.tasks[step.task]);
    match step.action
    case _ =>
  }

  /** The first state: the buffers are free in the order of their positions, and nothing else is there. */
  lemma StartResult(c: Config)
    requires c.Valid()
    ensures var sys := Start(c); var s := sys.shared;
            && |s.free| == |s.cells| == c.buffers && |s.table| == c.endpoints && |s.rings| == c.cores
            && s.ringSize == c.ringSize && s.bufferSize == c.bufferSize && sys.held == {} && sys.tasks == c.tasks
            && (forall b :: 0 <= b < c.buffers ==> s.free[b] == b)
            && (forall b :: 0 <= b < c.buffers ==>
                  s.cells[b].len == 0 && |s.cells[b].data| == c.bufferSize
                  && forall k :: 0 <= k < c.bufferSize ==> s.cells[b].data[k] == 0)
            && (forall i :: 0 <= i < c.endpoints ==> s.table[i] == Slot(Endpoint(0, 0, 0), []))
            && (forall core :: 0 <= core < c.cores ==> s.rings[core] == [])
  {
  }
}
