/** Buffers handed out by zero-copy receives. */
module MccZeroCopy {
  import opened MccTypes
  import opened MccShared
  import opened MccSections
  import opened MccProtocol
  import opened MccRuns
  import opened MccDelivery

  /** A step neither writes nor recycles a held buffer unless it is the call that frees it. */
  lemma StepSparesHeld(sys: System, step: Step, b: nat)
    requires sys.Ok() && Enabled(sys, step) && b in sys.held
    ensures var (r, e) := Perform(sys, step);
            && b < |sys.shared.cells| == |r.shared.cells|
            && r.shared.cells[b] == sys.shared.cells[b]
            && (b !in r.held <==> e == Freed(b))
            && (e.Taken? && e.receipt.Received? ==> e.receipt.buffer != b)
  {
    hide System.Partitioned, Shared.TableOk, Shared.RingsOk;
    PerformKeepsShape(sys, step);
    HeldIsElsewhere(sys, b);
    var (t, s, task) := (step.task, sys.shared, sys.tasks[step.task]);
    assert sys.TaskOk(task);
    match step.action
    case CreateEndpoint(port) => RegisterEffect(s, Endpoint(task.core, task.node, port));
    case DestroyEndpoint(ep) => RemoveEffect(s, ep);
    case Destroy(node) => RemoveNodeTable(s, node, 0);
    case Send(ep, msg, timeout) =>
      if |msg| <= s.bufferSize {
        SendSparesHeld(sys, t, ep, msg, timeout, b);
      }
    case RetrySend => SendSparesHeld(sys, t, task.pc.endpoint, task.pc.msg, task.pc.timeout, b);
    case Receive => ReceiveSparesHeld(sys, t, task.pc.endpoint, task.pc.slot, task.pc.mode, b);
    case FreeBuffer(k) =>
      HeldIsElsewhere(sys, k);
      FreeEffect(s, k, task.core);
    case _ =>
  }

  lemma SendSparesHeld(sys: System, t: nat, ep: Endpoint, msg: seq<Byte>, timeout: Timeout, b: nat)
    requires sys.Ok() && t < |sys.tasks| && |msg| <= sys.shared.bufferSize && b in sys.held
    ensures var (r, e) := SendPass(sys, t, ep, msg, timeout);
            && b < |sys.shared.cells| == |r.shared.cells|
            && r.shared.cells[b] == sys.shared.cells[b] && r.held == sys.held && !e.Freed? && !e.Taken?
  {
    HeldIsElsewhere(sys, b);
    SendAllOrNothing(sys.shared, ep, msg);
    assert b !in multiset(sys.shared.free);
  }

  lemma ReceiveSparesHeld(sys: System, t: nat, ep: Endpoint, slot: nat, mode: RecvMode, b: nat)
    requires sys.Ok() && t < |sys.tasks| && slot < |sys.shared.table| && b in sys.held
    ensures var (r, e) := ReceivePass(sys, t, ep, slot, mode);
            && b < |sys.shared.cells| == |r.shared.cells|
            && r.shared.cells[b] == sys.shared.cells[b] && b in r.held && !e.Freed?
            && (e.Taken? ==> e.receipt.Received? && e.receipt.buffer != b)
  {
    hide System.Partitioned;
    HeldIsElsewhere(sys, b);
    var q := sys.shared.table[slot].queue;
    if mode.ZeroCopy? {
      NoCopyEffect(sys.shared, slot);
    } else {
      CopyEffect(sys.shared, slot, mode.size, sys.tasks[t].core);
    }
    if q != [] {
      QueuedUpdate(sys.shared.table, slot, sys.shared.table[slot]);
      assert q[0] in multiset(q);
      assert Queued(sys.shared.table)[q[0]] > 0;
    }
  }

  /** The k-th step gives buffer b back. */
  predicate FreedAt(trace: seq<Event>, b: nat, k: nat) {
    k < |trace| && trace[k] == Freed(b)
  }

  /**
   Zero-copy stability: a buffer that is held in state j still is in state k, with its length
   and every byte as they were, if no step in between frees it, whatever else any task does.
   */
  lemma {:induction false} HeldIsStable(c: Config, x: Run, j: nat, k: nat, b: nat)
    requires IsRun(c, x) && j <= k < |x.states| && b in x.states[j].held
    requires forall m :: j <= m < k ==> !FreedAt(x.trace, b, m)
    ensures var s, r := x.states[j], x.states[k];
            && b in r.held && b < |s.shared.cells| == |r.shared.cells|
            && r.shared.cells[b] == s.shared.cells[b]
    decreases k
  {
    hide System.Partitioned, Shared.Ok, Perform;
    AlwaysOk(c, x, j);
    if j == k {
      HeldIsElsewhere(x.states[j], b);
    } else {
      HeldIsStable(c, x, j, k - 1, b);
      StepAt(c, x, k - 1);
      assert !FreedAt(x.trace, b, k - 1);
      if Enabled(x.states[k - 1], x.steps[k - 1]) {
        StepSparesHeld(x.states[k - 1], x.steps[k - 1], b);
      }
    }
  }

  /** A zero-copy receive makes its buffer held, with the delivered message in it. */
  lemma HandOutHolds(c: Config, x: Run, k: nat)
    requires IsRun(c, x) && k < |x.steps| && x.trace[k].Taken? && x.trace[k].zeroCopy
    ensures var e := x.trace[k]; var sys := x.states[k + 1];
            && e.receipt.Received? && e.receipt.buffer in sys.held
            && sys.shared.Ok() && e.receipt.buffer < |sys.shared.cells|
            && sys.shared.cells[e.receipt.buffer].Message() == e.receipt.message == e.receipt.output
  {
    hide System.Partitioned, Perform;
    EventStep(c, x, k);
    HandOutStep(x.states[k], x.steps[k]);
  }

  lemma HandOutStep(sys: System, step: Step)
    requires sys.Ok() && Enabled(sys, step) && Perform(sys, step).1.Taken? && Perform(sys, step).1.zeroCopy
    ensures var (r, e) := Perform(sys, step);
            && r.Ok() && e.receipt.Received? && e.receipt.buffer in r.held
            && e.receipt.buffer < |r.shared.cells|
            && r.shared.cells[e.receipt.buffer].Message() == e.receipt.message == e.receipt.output
  {
    hide System.Partitioned, Shared.TableOk, Shared.RingsOk;
    PerformKeepsOk(sys, step);
    assert sys.TaskOk(sys.tasks[step.task]);
    NoCopyEffect(sys.shared, sys.tasks[step.task].pc.slot);
  }

  /** Two receives never get the same buffer while the first holds it. */
  lemma NoSharedBuffer(c: Config, x: Run, j: nat, k: nat)
    requires IsRun(c, x) && j < k < |x.steps|
    requires x.trace[j].Taken? && x.trace[j].zeroCopy && x.trace[k].Taken?
    requires x.trace[j].receipt.Received? && x.trace[k].receipt.Received?
    requires x.trace[j].receipt.buffer == x.trace[k].receipt.buffer
    ensures exists m :: j < m < k && FreedAt(x.trace, x.trace[k].receipt.buffer, m)
  {
    hide System.Partitioned, Shared.Ok, Perform;
    var b := x.trace[k].receipt.buffer;
    HandOutHolds(c, x, j);
    EventStep(c, x, k);
    if b in x.states[k].held {
      StepSparesHeld(x.states[k], x.steps[k], b);
      assert false;
    }
    if forall m :: j + 1 <= m < k ==> !FreedAt(x.trace, b, m) {
      HeldIsStable(c, x, j + 1, k, b);
      assert false;
    }
  }
}
