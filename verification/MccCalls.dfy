/**
 Whole calls over their waits: what a call of mcc_send, mcc_recv_copy or mcc_recv_nocopy comes to
 in the end is what it was asked for in the beginning, whatever other tasks do in between.
 */
module MccCalls {
  import opened MccTypes
  import opened MccShared
  import opened MccProtocol
  import opened MccRuns
  import opened MccDelivery
  import opened MccResults

  // ---------- sending ----------

  /** In the j-th step task t, then idle, calls mcc_send, and up to state k it waits with what it was given. */
  ghost predicate WaitingSince(x: Run, j: nat, k: nat, t: nat) {
    && j < k < |x.states| && j < |x.steps| && x.steps[j].task == t && x.steps[j].action.Send?
    && t < |x.states[j].tasks| && x.states[j].tasks[t].pc == Idle
    && var call := x.steps[j].action;
       forall n :: j < n <= k ==>
         t < |x.states[n].tasks| && x.states[n].tasks[t].pc == SendWaiting(call.endpoint, call.msg, call.timeout)
  }

  /** A task comes to wait for a buffer by its own call only, and keeps what it was given. */
  lemma WaitStarts(sys: System, step: Step, t: nat)
    requires sys.Ok() && Enabled(sys, step) && t < |sys.tasks|
    ensures var (r, e) := Perform(sys, step);
            && |r.tasks| == |sys.tasks|
            && var (before, after) := (sys.tasks[t].pc, r.tasks[t].pc);
               after.SendWaiting? ==>
                 || after == before
                 || (step.task == t && before == Idle && step.action.Send? && step.action.timeout != NoWait
                     && after == SendWaiting(step.action.endpoint, step.action.msg, step.action.timeout))
  {
    hide System.Partitioned, Shared.Ok, Lookup, SendSection, CopySection, NoCopySection;
    assert sys.TaskOk(sys.tasks[step.task]);
    match step.action
    case _ =>
  }

  /** A waiting task made a call that may wait. */
  lemma {:induction false} WaitFollowsSend(c: Config, x: Run, k: nat, t: nat)
    requires IsRun(c, x) && k < |x.states| && t < |x.states[k].tasks| && x.states[k].tasks[t].pc.SendWaiting?
    ensures x.states[k].tasks[t].pc.timeout != NoWait && exists j: nat :: WaitingSince(x, j, k, t)
  {
    hide System.Partitioned, Shared.Ok, Perform;
    AlwaysOk(c, x, k);
    if k > 0 {
      StepAt(c, x, k - 1);
      var before := x.states[k - 1].tasks[t].pc;
      if Enabled(x.states[k - 1], x.steps[k - 1]) {
        WaitStarts(x.states[k - 1], x.steps[k - 1], t);
      }
      if before.SendWaiting? {
        WaitFollowsSend(c, x, k - 1, t);
        var j: nat :| WaitingSince(x, j, k - 1, t);
        assert WaitingSince(x, j, k, t);
      } else {
        assert WaitingSince(x, k - 1, k, t);
      }
    }
  }

  /** The k-th step is part of the call of mcc_send that was made in the j-th step. */
  ghost predicate SendCall(x: Run, j: nat, k: nat) {
    && j <= k < |x.steps| && k < |x.states|
    && if j == k then
         && x.steps[k].action.Send? && x.steps[k].task < |x.states[k].tasks|
         && x.states[k].tasks[x.steps[k].task].pc == Idle
       else
         && (x.steps[k].action == RetrySend || x.steps[k].action == GiveUpSend)
         && WaitingSince(x, j, k, x.steps[k].task)
  }

  /** Every step of mcc_send is part of one call, and of one only. */
  lemma HasSendCall(c: Config, x: Run, k: nat)
    requires IsRun(c, x) && k < |x.steps| && Enabled(x.states[k], x.steps[k])
    requires x.steps[k].action.Send? || x.steps[k].action == RetrySend || x.steps[k].action == GiveUpSend
    ensures exists j: nat :: SendCall(x, j, k)
    ensures forall i: nat, j: nat :: SendCall(x, i, k) && SendCall(x, j, k) ==> i == j
  {
    if x.steps[k].action.Send? {
      assert SendCall(x, k, k);
    } else {
      WaitFollowsSend(c, x, k, x.steps[k].task);
      var j: nat :| WaitingSince(x, j, k, x.steps[k].task);
      assert SendCall(x, j, k);
    }
  }

  /** What a call of mcc_send comes to in a state of the block; Silent means that it waits. */
  ghost function SendVerdict(s: Shared, ep: Endpoint, msg: seq<Byte>, timeout: Timeout): Event {
    if |msg| > s.bufferSize then Failed(ErrInval)
    else if s.free == [] then if timeout == NoWait then Failed(ErrNoMem) else Silent
    else if !Known(s.table, ep) then Failed(ErrEndpoint)
    else if ep.core < |s.rings| && |s.rings[ep.core]| + 1 >= s.ringSize then Failed(ErrSqFull)
    else Sent(ep, msg)
  }

  /**
   Every step of a call of mcc_send comes to what the call was given and the block at that moment
   say: with its own message and endpoint, however long it waited.  It gives up waiting only
   when its time-out is finite, and waits on only when it found no buffer.
   */
  lemma SendOutcome(c: Config, x: Run, j: nat, k: nat)
    requires IsRun(c, x) && SendCall(x, j, k)
    ensures var s, r := x.states[k].shared, x.states[k + 1].shared;
            var (e, call, t) := (x.trace[k], x.steps[j].action, x.steps[k].task);
            && call.Send? && x.steps[j].task == t < |x.states[k + 1].tasks|
            && e == (if x.steps[k].action != GiveUpSend then SendVerdict(s, call.endpoint, call.msg, call.timeout)
                     else if call.timeout == Bounded then Failed(ErrTimeout) else Silent)
            && x.states[k + 1].tasks[t].pc
               == (if e == Silent then SendWaiting(call.endpoint, call.msg, call.timeout) else Idle)
            && (if e.Sent? then Delivered(s, r, call.endpoint, call.msg)
                else if e == Failed(ErrEndpoint) || e == Failed(ErrSqFull) then Undone(s, r)
                else r == s)
  {
    hide System.Partitioned, Shared.Ok, Perform, Known, Undone, Delivered;
    StepAt(c, x, k);
    var (sys, step) := (x.states[k], x.steps[k]);
    assert sys.TaskOk(sys.tasks[step.task]);
    var call := x.steps[j].action;
    if step.action != GiveUpSend {
      SendResult(sys, step, call.endpoint, call.msg, call.timeout);
    } else if call.timeout == Bounded {
      GiveUpResult(sys, step);
    }
  }

  /** Every message sent is that of one call, made by the same task to the same endpoint. */
  lemma SentByCall(c: Config, x: Run, k: nat)
    requires IsRun(c, x) && k < |x.steps| && x.trace[k].Sent?
    ensures exists j: nat :: SendCall(x, j, k) && x.steps[j].task == x.steps[k].task
              && x.steps[j].action == Send(x.trace[k].endpoint, x.trace[k].msg, x.steps[j].action.timeout)
    ensures forall i: nat, j: nat :: SendCall(x, i, k) && SendCall(x, j, k) ==> i == j
  {
    hide Perform, System.Ok;
    EventStep(c, x, k);
    SentInSend(x.states[k], x.steps[k]);
    HasSendCall(c, x, k);
    var j: nat :| SendCall(x, j, k);
    SendOutcome(c, x, j, k);
  }

  lemma SentInSend(sys: System, step: Step)
    requires sys.Ok() && Enabled(sys, step) && Perform(sys, step).1.Sent?
    ensures step.action.Send? || step.action == RetrySend
  {
    hide System.Partitioned, Shared.Ok, SendSection, CopySection, NoCopySection;
    assert sys.TaskOk(sys.tasks[step.task]);
  }

  /** A call comes to an end once: after a step that did, the same task's later steps are those of other calls. */
  lemma EndsOnce(c: Config, x: Run, i: nat, k: nat, j: nat, l: nat)
    requires IsRun(c, x) && k < l && SendCall(x, i, k) && SendCall(x, j, l) && x.trace[k] != Silent
    ensures i != j
  {
    hide Perform, System.Ok, SendVerdict;
    SendOutcome(c, x, i, k);
    SendOutcome(c, x, j, l);
  }

  // ---------- receiving ----------

  /**
   What a receive takes is handed out as its own lookup was asked: a zero-copy receive outputs the
   whole message and holds the buffer, a copying one outputs the first bytes that fit the size
   given and puts the buffer behind the free list.
   */
  lemma ReceiveAsAsked(c: Config, x: Run, j: nat, k: nat)
    requires IsRun(c, x) && OwnLookup(x, j, k)
    ensures var (e, call) := (x.trace[k], x.steps[j].action); var sys, r := x.states[k], x.states[k + 1];
            && call.LookUp? && call.endpoint == e.endpoint && x.steps[j].task == x.steps[k].task
            && e.receipt.Received? && (e.zeroCopy <==> call.mode.ZeroCopy?)
            && match call.mode
               case ZeroCopy =>
                 && e.receipt.output == e.receipt.message
                 && r.held == sys.held + {e.receipt.buffer} && r.shared.free == sys.shared.free
               case CopyInto(size) =>
                 && e.receipt.output == FirstBytes(e.receipt.message, size)
                 && r.held == sys.held && r.shared.free == sys.shared.free + [e.receipt.buffer]
  {
    hide Perform, System.Ok;
    EventStep(c, x, k);
    TakenInReceive(x.states[k], x.steps[k]);
    ReceiveResult(x.states[k], x.steps[k]);
  }

  lemma TakenInReceive(sys: System, step: Step)
    requires sys.Ok() && Enabled(sys, step) && Perform(sys, step).1.Taken?
    ensures step.action == Receive
  {
    hide System.Partitioned, Shared.Ok, SendSection, CopySection, NoCopySection;
    assert sys.TaskOk(sys.tasks[step.task]);
  }

  /**
   How the steps of a receive end, by its own lookup in the j-th step: after the look only a call
   with time-out 0 ends, when it saw nothing; in the second section it times out exactly when the
   list is empty then, with nothing changed, and takes a message otherwise.
   */
  lemma ReceiveOutcome(c: Config, x: Run, j: nat, k: nat)
    requires IsRun(c, x) && k < |x.steps| && ReceivingSince(x, j, k, x.steps[k].task)
    requires x.steps[k].action.Peek? || x.steps[k].action == Receive
    requires Enabled(x.states[k], x.steps[k])
    ensures var sys, r := x.states[k], x.states[k + 1];
            var (call, slot, e, t) := (x.steps[j].action, x.trace[j].slot, x.trace[k], x.steps[k].task);
            && call.LookUp? && slot < |sys.shared.table|
            && if x.steps[k].action.Peek? then
                 if x.steps[k].action.empty && call.timeout == NoWait
                 then e == Failed(ErrTimeout) && r == sys.At(t, Idle)
                 else e == Silent && r == sys.At(t, Receiving(call.endpoint, slot, call.mode))
               else if sys.shared.table[slot].queue == [] then e == Failed(ErrTimeout) && r == sys.At(t, Idle)
               else e.Taken? && e.endpoint == call.endpoint && e.slot == slot && OwnLookup(x, j, k)
  {
    hide Perform, System.Partitioned, Shared.Ok;
    StepAt(c, x, k);
    assert x.states[k].TaskOk(x.states[k].tasks[x.steps[k].task]);
    if x.steps[k].action.Peek? {
      PeekResult(x.states[k], x.steps[k]);
    } else {
      ReceiveResult(x.states[k], x.steps[k]);
    }
  }
}
