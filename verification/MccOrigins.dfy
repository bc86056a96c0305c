/**
 Which send a receive delivers.  The send is identified by the buffer alone: it is the last one
 that took this buffer from the head of the free list and filled it.
 */
module MccOrigins {
  import opened Options
  import opened MccTypes
  import opened MccShared
  import opened MccSections
  import opened MccProtocol
  import opened MccRuns
  import opened MccDelivery

  /** The k-th step is a send that fills buffer b. */
  ghost predicate FillsAt(x: Run, k: nat, b: nat) {
    && k < |x.trace| && k < |x.states| && x.trace[k].Sent?
    && x.states[k].shared.free != [] && x.states[k].shared.free[0] == b
  }

  /** The last send before state k that filled buffer b, or -1. */
  ghost function LastFill(x: Run, k: nat, b: nat): (m: int)
    ensures -1 <= m < k
    ensures m >= 0 ==> FillsAt(x, m, b)
    ensures forall n :: m < n < k ==> !FillsAt(x, n, b)
  {
    if k == 0 then -1 else if FillsAt(x, k - 1, b) then k - 1 else LastFill(x, k - 1, b)
  }

  // ---------- one step ----------

  /** A list keeps its buffers with what is in them, except for its head, and gains only what a send filled. */
  ghost predicate QueueEffect(s: Shared, e: Event, r: Shared, i: nat)
    requires s.Shaped() && r.Shaped() && i < |s.table| == |r.table|
  {
    var ep, q, left := s.table[i].endpoint, s.table[i].queue, r.table[i].queue;
    left != [] ==>
      && r.table[i].endpoint == ep
      && |r.cells| == |s.cells| && (forall b :: b in left && b in q ==> r.cells[b] == s.cells[b])
      && (e.Sent? ==> s.free != [] && s.free[0] !in q)
      && (left == q
          || (q != [] && left == q[1..])
          || (e.Sent? && left == q + [s.free[0]] && s.free[0] in left && e == Sent(ep, r.cells[s.free[0]].Message())))
  }

  lemma SendQueue(sys: System, ep: Endpoint, msg: seq<Byte>, e: Event, i: nat)
    requires sys.Ok() && |msg| <= sys.shared.bufferSize && i < |sys.shared.table|
    requires (SendSection(sys.shared, ep, msg).1 == Some(Success)) == e.Sent?
    requires e.Sent? ==> e == Sent(ep, msg)
    ensures var s := sys.shared; var r := SendSection(s, ep, msg).0;
            r.Ok() && |r.table| == |s.table| && QueueEffect(s, e, r, i)
  {
    hide SendSection, System.Partitioned, Shared.TableOk, Shared.RingsOk;
    var s := sys.shared;
    SendAllOrNothing(s, ep, msg);
    if s.free != [] {
      OnePlaceOnly(sys, s.free[0]);
      NotQueued(s, s.free[0], i);
    }
  }

  lemma ReceiveQueue(sys: System, t: nat, ep: Endpoint, slot: nat, mode: RecvMode, i: nat)
    requires sys.Ok() && t < |sys.tasks| && slot < |sys.shared.table| && i < |sys.shared.table|
    ensures var (r, e) := ReceivePass(sys, t, ep, slot, mode); var s := sys.shared;
            && r.Ok() && |r.shared.table| == |s.table| && QueueEffect(s, e, r.shared, i)
            && (e.Taken? ==> s.table[slot].queue != [] && e.receipt.Received?
                             && r.shared.table[slot].queue == s.table[slot].queue[1..]
                             && (i != slot ==> r.shared.table[i] == s.table[i]))
  {
    hide System.Partitioned, Shared.TableOk, Shared.RingsOk, CopySection, NoCopySection;
    var s := sys.shared;
    ReceivePassOk(sys, t, ep, slot, mode);
    if mode.ZeroCopy? {
      NoCopyEffect(s, slot);
    } else {
      CopyEffect(s, slot, mode.size, sys.tasks[t].core);
    }
    if s.table[slot].queue != [] {
      HeadIsUnique(sys, slot, i);
    }
  }

  lemma QuietQueue(s: Shared, e: Event, r: Shared, i: nat)
    requires s.Shaped() && r.Shaped() && i < |s.table| == |r.table| && !e.Sent?
    requires r.table[i].queue == [] || (r.table[i] == s.table[i] && r.cells == s.cells)
    ensures QueueEffect(s, e, r, i)
  {
  }

  /** A step that opens or closes entries, seen from one list. */
  lemma TableStepQueue(sys: System, step: Step, i: nat)
    requires sys.Ok() && Enabled(sys, step) && i < |sys.shared.table|
    requires step.action.CreateEndpoint? || step.action.DestroyEndpoint? || step.action.Destroy?
    ensures var (r, e) := Perform(sys, step); var s := sys.shared;
            r.shared.Ok() && |r.shared.table| == |s.table| && QueueEffect(s, e, r.shared, i)
  {
    hide System.Partitioned, Shared.TableOk, Shared.RingsOk, QueueEffect;
    var (s, task) := (sys.shared, sys.tasks[step.task]);
    var (r, e) := Perform(sys, step);
    assert sys.TaskOk(task);
    match step.action
    case CreateEndpoint(port) =>
      RegisterEffect(s, Endpoint(task.core, task.node, port));
      QuietQueue(s, e, r.shared, i);
    case DestroyEndpoint(ep) =>
      RemoveEffect(s, ep);
      QuietQueue(s, e, r.shared, i);
    case Destroy(node) =>
      RemoveNodeTable(s, node, 0);
      QuietQueue(s, e, r.shared, i);
  }

  /** Every step, seen from one list. */
  lemma StepQueue(sys: System, step: Step, i: nat)
    requires sys.Ok() && Enabled(sys, step) && i < |sys.shared.table|
    ensures var (r, e) := Perform(sys, step); var s := sys.shared;
            r.Ok() && |r.shared.table| == |s.table| && QueueEffect(s, e, r.shared, i)
  {
    hide System.Partitioned, Shared.TableOk, Shared.RingsOk, QueueEffect;
    PerformKeepsOk(sys, step);
    var (t, s, task) := (step.task, sys.shared, sys.tasks[step.task]);
    var (r, e) := Perform(sys, step);
    assert sys.TaskOk(task);
    match step.action
    case CreateEndpoint(_) => TableStepQueue(sys, step, i);
    case DestroyEndpoint(_) => TableStepQueue(sys, step, i);
    case Destroy(_) => TableStepQueue(sys, step, i);
    case Send(ep, msg, timeout) =>
      if |msg| <= s.bufferSize {
        SendQueue(sys, ep, msg, e, i);
      } else {
        QuietQueue(s, e, r.shared, i);
      }
    case RetrySend => SendQueue(sys, task.pc.endpoint, task.pc.msg, e, i);
    case Receive => ReceiveQueue(sys, t, task.pc.endpoint, task.pc.slot, task.pc.mode, i);
    case FreeBuffer(b) =>
      HeldIsElsewhere(sys, b);
      FreeEffect(s, b, task.core);
      QuietQueue(s, e, r.shared, i);
    case _ => QuietQueue(s, e, r.shared, i);
  }

  /** The effect of one step of a run on one list. */
  lemma QueueStep(c: Config, x: Run, k: nat, i: nat)
    requires IsRun(c, x) && k < |x.steps| && i < c.endpoints
    ensures x.states[k].Ok() && Sized(c, x.states[k]) && x.states[k + 1].Ok() && Sized(c, x.states[k + 1])
    ensures QueueEffect(x.states[k].shared, x.trace[k], x.states[k + 1].shared, i)
  {
    hide System.Partitioned, Shared.TableOk, Shared.RingsOk, Perform;
    StepAt(c, x, k);
    if Enabled(x.states[k], x.steps[k]) {
      StepQueue(x.states[k], x.steps[k], i);
    }
  }

  // ---------- where queued buffers come from ----------

  /** Each queued buffer was last filled by a send to the endpoint of the entry, and in the order of the list. */
  ghost predicate Origins(x: Run, k: nat, i: nat)
    requires k < |x.states| && x.states[k].shared.Shaped() && i < |x.states[k].shared.table|
  {
    var s := x.states[k].shared;
    var q := s.table[i].queue;
    && (forall p :: 0 <= p < |q| ==>
          && q[p] in q && 0 <= LastFill(x, k, q[p]) < |x.trace|
          && x.trace[LastFill(x, k, q[p])] == Sent(s.table[i].endpoint, s.cells[q[p]].Message()))
    && (forall p, n :: 0 <= p < n < |q| ==> LastFill(x, k, q[p]) < LastFill(x, k, q[n]))
  }

  lemma {:induction false} QueueOrigins(c: Config, x: Run, k: nat, i: nat)
    requires IsRun(c, x) && k < |x.states| && i < c.endpoints
    ensures x.states[k].Ok() && Sized(c, x.states[k]) && Origins(x, k, i)
  {
    hide System.Partitioned, Shared.TableOk, Shared.RingsOk, Perform;
    AlwaysOk(c, x, k);
    if k > 0 {
      QueueOrigins(c, x, k - 1, i);
      QueueStep(c, x, k - 1, i);
      OriginsStep(x, k - 1, i);
    }
  }

  lemma OriginsStep(x: Run, k: nat, i: nat)
    requires k + 1 < |x.states| && k < |x.trace|
    requires var s, r := x.states[k].shared, x.states[k + 1].shared;
             && s.Shaped() && r.Shaped() && i < |s.table| == |r.table|
             && QueueEffect(s, x.trace[k], r, i) && Origins(x, k, i)
    ensures Origins(x, k + 1, i)
  {
    hide LastFill, Shared.Shaped, Origins;
    var s, r := x.states[k].shared, x.states[k + 1].shared;
    var q, left := s.table[i].queue, r.table[i].queue;
    if left == [] {
      NoOrigins(x, k + 1, i);
    } else {
      forall b | b in q ensures LastFill(x, k + 1, b) == LastFill(x, k, b) {
        FillStep(x, k, b);
      }
      if left == q {
        OriginsKept(x, k, i, 0);
      } else if q != [] && left == q[1..] {
        OriginsKept(x, k, i, 1);
      } else {
        FillStep(x, k, s.free[0]);
        OriginsGained(x, k, i, s.free[0]);
      }
    }
  }

  lemma NoOrigins(x: Run, k: nat, i: nat)
    requires k < |x.states| && x.states[k].shared.Shaped() && i < |x.states[k].shared.table|
    requires x.states[k].shared.table[i].queue == []
    ensures Origins(x, k, i)
  {
  }

  /** The list stays, or loses its head. */
  lemma OriginsKept(x: Run, k: nat, i: nat, d: nat)
    requires k + 1 < |x.states| && x.states[k].shared.Shaped() && x.states[k + 1].shared.Shaped()
    requires var s, r := x.states[k].shared, x.states[k + 1].shared;
             && i < |s.table| == |r.table| && Origins(x, k, i)
             && r.table[i].endpoint == s.table[i].endpoint && |r.cells| == |s.cells|
             && d <= |s.table[i].queue| && r.table[i].queue == s.table[i].queue[d..]
             && (forall b :: b in r.table[i].queue ==> r.cells[b] == s.cells[b])
             && (forall b :: b in s.table[i].queue ==> LastFill(x, k + 1, b) == LastFill(x, k, b))
    ensures Origins(x, k + 1, i)
  {
    hide LastFill;
    var q, left := x.states[k].shared.table[i].queue, x.states[k + 1].shared.table[i].queue;
    forall p | 0 <= p < |left| ensures left[p] == q[p + d] && left[p] in left && left[p] in q {
    }
  }

  /** The list gains the buffer that the step filled. */
  lemma OriginsGained(x: Run, k: nat, i: nat, b: nat)
    requires k + 1 < |x.states| && k < |x.trace| && x.states[k].shared.Shaped() && x.states[k + 1].shared.Shaped()
    requires var s, r := x.states[k].shared, x.states[k + 1].shared;
             && i < |s.table| == |r.table| && Origins(x, k, i)
             && r.table[i].endpoint == s.table[i].endpoint && |r.cells| == |s.cells|
             && r.table[i].queue == s.table[i].queue + [b] && b in r.table[i].queue
             && (forall a :: a in s.table[i].queue ==> r.cells[a] == s.cells[a])
             && (forall a :: a in s.table[i].queue ==> LastFill(x, k + 1, a) == LastFill(x, k, a))
             && LastFill(x, k + 1, b) == k && x.trace[k] == Sent(s.table[i].endpoint, r.cells[b].Message())
    ensures Origins(x, k + 1, i)
  {
    hide LastFill;
    var q, left := x.states[k].shared.table[i].queue, x.states[k + 1].shared.table[i].queue;
    forall p | 0 <= p < |left|
      ensures left[p] in left && if p < |q| then left[p] == q[p] && q[p] in q else left[p] == b
    {
    }
  }

  lemma FillStep(x: Run, k: nat, b: nat)
    ensures LastFill(x, k + 1, b) == if FillsAt(x, k, b) then k else LastFill(x, k, b)
  {
  }

  /** A queued buffer has been on that list, under that endpoint, since state j, or was filled after it. */
  lemma {:induction false} ArrivedSince(c: Config, x: Run, j: nat, k: nat, i: nat, b: nat)
    requires IsRun(c, x) && j <= k < |x.states| && i < c.endpoints
    requires i < |x.states[k].shared.table| && b in x.states[k].shared.table[i].queue
    ensures x.states[j].Ok() && Sized(c, x.states[j])
    ensures LastFill(x, k, b) >= j
            || (b in x.states[j].shared.table[i].queue && LastFill(x, k, b) == LastFill(x, j, b)
                && x.states[j].shared.table[i].endpoint == x.states[k].shared.table[i].endpoint)
    decreases k
  {
    hide System.Partitioned, Shared.TableOk, Shared.RingsOk, Perform;
    AlwaysOk(c, x, j);
    if j < k {
      QueueStep(c, x, k - 1, i);
      if b in x.states[k - 1].shared.table[i].queue {
        ArrivedSince(c, x, j, k - 1, i, b);
      } else {
        assert FillsAt(x, k - 1, b);
      }
    }
  }

  // ---------- receives ----------

  /** The send whose message a receive delivers. */
  ghost function DeliveredSend(x: Run, k: nat): int
    requires k < |x.trace| && x.trace[k].Taken? && x.trace[k].receipt.Received?
  {
    LastFill(x, k, x.trace[k].receipt.buffer)
  }

  /**
   Every receive delivers the message of the send that filled its buffer last, and that send was
   addressed to the endpoint that occupies the entry at the moment of the receive.
   */
  lemma DeliversFill(c: Config, x: Run, k: nat)
    requires IsRun(c, x) && k < |x.steps| && x.trace[k].Taken?
    ensures var e := x.trace[k]; var s := x.states[k].shared;
            && e.receipt.Received? && e.slot < |s.table| == c.endpoints && s.table[e.slot].queue != []
            && e.receipt.buffer == s.table[e.slot].queue[0]
            && 0 <= DeliveredSend(x, k) < k
            && x.trace[DeliveredSend(x, k)] == Sent(s.table[e.slot].endpoint, e.receipt.message)
  {
    hide System.Partitioned, Shared.TableOk, Shared.RingsOk, Perform;
    EventStep(c, x, k);
    TakenReceipt(x.states[k], x.steps[k]);
    QueueOrigins(c, x, k, x.trace[k].slot);
  }

  /** What a receive takes is on no list afterwards, and the rest of its list stays. */
  lemma TakenLeaves(c: Config, x: Run, k: nat, i: nat)
    requires IsRun(c, x) && k < |x.steps| && x.trace[k].Taken? && i < c.endpoints
    ensures var e := x.trace[k]; var s, r := x.states[k].shared, x.states[k + 1].shared;
            && e.receipt.Received? && |s.table| == |r.table| == c.endpoints && e.slot < c.endpoints
            && s.table[e.slot].queue != [] && e.receipt.buffer == s.table[e.slot].queue[0]
            && e.receipt.buffer !in r.table[i].queue
            && r.table[e.slot].queue == s.table[e.slot].queue[1..]
  {
    hide System.Partitioned, Shared.TableOk, Shared.RingsOk;
    EventStep(c, x, k);
    StepAt(c, x, k);
    var sys, step := x.states[k], x.steps[k];
    var pc := sys.tasks[step.task].pc;
    TakenReceipt(sys, step);
    ReceiveQueue(sys, step.task, pc.endpoint, pc.slot, pc.mode, i);
    HeadIsUnique(sys, pc.slot, i);
  }

  /**
   No message is delivered twice, and messages that were sent to the same endpoint, or that are
   taken from the same entry, are delivered in the order in which they were sent.
   */
  lemma DeliveredOnceInOrder(c: Config, x: Run, j: nat, k: nat)
    requires IsRun(c, x) && j < k < |x.steps| && x.trace[j].Taken? && x.trace[k].Taken?
    ensures x.trace[j].receipt.Received? && x.trace[k].receipt.Received?
    ensures 0 <= DeliveredSend(x, j) < j && 0 <= DeliveredSend(x, k) < k
    ensures var m, n := DeliveredSend(x, j), DeliveredSend(x, k);
            && m != n
            && (x.trace[j].slot == x.trace[k].slot || x.trace[m].endpoint == x.trace[n].endpoint ==> m < n)
  {
    hide System.Ok, Perform, Origins;
    DeliversFill(c, x, j);
    DeliversFill(c, x, k);
    var (a, b, i) := (x.trace[j].receipt.buffer, x.trace[k].receipt.buffer, x.trace[k].slot);
    var m, n := DeliveredSend(x, j), DeliveredSend(x, k);
    ArrivedSince(c, x, j + 1, k, i, b);
    if n < j + 1 {
      TakenLeaves(c, x, j, i);
      BehindTaken(c, x, j, i, b);
    }
  }

  /** A buffer that is still on a list after a receive: if on the same list, it was filled later. */
  lemma BehindTaken(c: Config, x: Run, j: nat, i: nat, b: nat)
    requires IsRun(c, x) && j < |x.steps| && x.trace[j].Taken? && x.trace[j].receipt.Received? && i < c.endpoints
    requires i < |x.states[j + 1].shared.table| && b in x.states[j + 1].shared.table[i].queue
    ensures x.trace[j].slot < |x.states[j].shared.table| == |x.states[j + 1].shared.table|
    ensures var m, n := DeliveredSend(x, j), LastFill(x, j + 1, b);
            && n != m
            && (i == x.trace[j].slot ==> m < n)
            && (i != x.trace[j].slot ==>
                  x.states[j + 1].shared.table[i].endpoint != x.states[j].shared.table[x.trace[j].slot].endpoint)
  {
    hide System.Partitioned, Shared.RingsOk, Perform;
    var slot := x.trace[j].slot;
    TakenLeaves(c, x, j, i);
    QueueStep(c, x, j, i);
    QueueOrigins(c, x, j, slot);
    var q := x.states[j].shared.table[slot].queue;
    assert LastFill(x, j + 1, b) == LastFill(x, j, b);
    if i == slot {
      var p :| 0 <= p < |q[1..]| && q[1..][p] == b;
      assert q[p + 1] == b;
    }
  }

  // ---------- right and wrong deliveries ----------

  /** What closing and opening do to one entry. */
  ghost predicate OccupantEffect(s: Shared, e: Event, r: Shared, i: nat)
    requires i < |s.table| == |r.table|
  {
    var before, after := s.table[i].endpoint, r.table[i].endpoint;
    if e.Closed? && i in e.slots then after.Reserved()
    else if e.Opened? && e.slot == i then before.Reserved() && after == e.endpoint
    else after == before || (before.Reserved() && after.Reserved())
  }

  lemma SameOccupant(s: Shared, e: Event, r: Shared, i: nat)
    requires s.Shaped() && r.Shaped() && i < |s.table| == |r.table|
    requires EntryEffect(s, e, r, i) && EntryStays(s, e, r, i) && !e.Opened? && !e.Closed?
    ensures OccupantEffect(s, e, r, i)
  {
  }

  lemma TableStepOccupant(sys: System, step: Step, i: nat)
    requires sys.Ok() && Enabled(sys, step) && i < |sys.shared.table|
    requires step.action.CreateEndpoint? || step.action.DestroyEndpoint? || step.action.Destroy?
    ensures var (r, e) := Perform(sys, step); var s := sys.shared;
            |r.shared.table| == |s.table| && OccupantEffect(s, e, r.shared, i)
  {
    hide System.Partitioned, Shared.Shaped, Shared.RingsOk;
    var s, task := sys.shared, sys.tasks[step.task];
    assert sys.TaskOk(task);
    match step.action
    case CreateEndpoint(port) => RegisterEffect(s, Endpoint(task.core, task.node, port));
    case DestroyEndpoint(ep) => RemoveEffect(s, ep);
    case Destroy(node) => RemoveNodeTable(s, node, 0);
  }

  lemma StepOccupant(sys: System, step: Step, i: nat)
    requires sys.Ok() && Enabled(sys, step) && i < |sys.shared.table|
    ensures var (r, e) := Perform(sys, step); var s := sys.shared;
            |r.shared.table| == |s.table| && OccupantEffect(s, e, r.shared, i)
  {
    if step.action.CreateEndpoint? || step.action.DestroyEndpoint? || step.action.Destroy? {
      TableStepOccupant(sys, step, i);
    } else {
      StepEntry(sys, step, i);
      NeitherOpensNorCloses(sys, step);
      hide Perform, System.Ok, EntryEffect, EntryStays, OccupantEffect;
      SameOccupant(sys.shared, Perform(sys, step).1, Perform(sys, step).0.shared, i);
    }
  }

  lemma NeitherOpensNorCloses(sys: System, step: Step)
    requires sys.Ok() && Enabled(sys, step)
    requires !step.action.CreateEndpoint? && !step.action.DestroyEndpoint? && !step.action.Destroy?
    ensures !Perform(sys, step).1.Opened? && !Perform(sys, step).1.Closed?
  {
    hide SendSection, CopySection, NoCopySection, System.Partitioned;
    assert sys.TaskOk(sys.tasks[step.task]);
  }

  /** The o-th step opened the entry for ep, and it was not closed before step k. */
  ghost predicate OpenSince(trace: seq<Event>, o: nat, k: nat, slot: nat, ep: Endpoint) {
    o < |trace| && trace[o] == Opened(slot, ep) && forall n :: o < n < k ==> !ClosedAt(trace, slot, n)
  }

  /** Between steps j and k the entry was not closed, or it was opened again for ep and not closed since. */
  ghost predicate StaysOrReturns(trace: seq<Event>, j: nat, k: nat, slot: nat, ep: Endpoint) {
    || (forall n :: j < n < k ==> !ClosedAt(trace, slot, n))
    || exists o: nat :: j < o < k && OpenSince(trace, o, k, slot, ep)
  }

  /** After a lookup found ep, the steps that open and close the entry tell whether ep occupies it. */
  lemma {:induction false} OccupantSince(c: Config, x: Run, j: nat, k: nat, slot: nat, ep: Endpoint)
    requires IsRun(c, x) && j < k < |x.states| && x.trace[j] == Found(ep, slot)
    ensures !ep.Reserved() && x.states[k].Ok() && Sized(c, x.states[k]) && slot < c.endpoints
    ensures x.states[k].shared.table[slot].endpoint == ep <==> StaysOrReturns(x.trace, j, k, slot, ep)
    decreases k
  {
    hide System.Partitioned, Shared.Ok, Perform, StaysOrReturns;
    AlwaysOk(c, x, k);
    FoundIsRegistered(c, x, j);
    if k == j + 1 {
      assert StaysOrReturns(x.trace, j, k, slot, ep) by {
        StartsAsFound(x.trace, j, slot, ep);
      }
    } else {
      OccupantSince(c, x, j, k - 1, slot, ep);
      StepAt(c, x, k - 1);
      if Enabled(x.states[k - 1], x.steps[k - 1]) {
        StepOccupant(x.states[k - 1], x.steps[k - 1], slot);
      }
      StaysStep(x.trace, j, k - 1, slot, ep);
    }
  }

  lemma StartsAsFound(trace: seq<Event>, j: nat, slot: nat, ep: Endpoint)
    ensures StaysOrReturns(trace, j, j + 1, slot, ep)
  {
  }

  /** One more step. */
  lemma StaysStep(trace: seq<Event>, j: nat, k: nat, slot: nat, ep: Endpoint)
    requires j < k < |trace|
    ensures StaysOrReturns(trace, j, k + 1, slot, ep) <==>
              if ClosedAt(trace, slot, k) then false
              else trace[k] == Opened(slot, ep) || StaysOrReturns(trace, j, k, slot, ep)
  {
    var next := k + 1;
    forall o: nat | o < k
      ensures OpenSince(trace, o, next, slot, ep) <==> OpenSince(trace, o, k, slot, ep) && !ClosedAt(trace, slot, k)
    {
    }
    if trace[k] == Opened(slot, ep) {
      assert OpenSince(trace, k, next, slot, ep);
    }
    if o: nat :| j < o < next && OpenSince(trace, o, next, slot, ep) {
      assert o == k || OpenSince(trace, o, k, slot, ep);
    }
  }

  /**
   When a receive is right.  The documentation promises a message that was sent to the endpoint
   asked for; the send that filled the buffer was addressed to that endpoint exactly when, since
   the lookup with which this receive began, the entry was not closed, or was opened again for
   the same endpoint and not closed since.
   */
  lemma RightEndpoint(c: Config, x: Run, j: nat, k: nat)
    requires IsRun(c, x) && OwnLookup(x, j, k)
    ensures var e := x.trace[k];
            && e.receipt.Received? && 0 <= DeliveredSend(x, k) < k
            && var sent := x.trace[DeliveredSend(x, k)];
               && sent.Sent? && sent.msg == e.receipt.message
               && (sent.endpoint == e.endpoint <==> StaysOrReturns(x.trace, j, k, e.slot, e.endpoint))
  {
    hide StaysOrReturns;
    DeliversFill(c, x, k);
    OccupantSince(c, x, j, k, x.trace[k].slot, x.trace[k].endpoint);
  }
}
